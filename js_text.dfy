/**
 * The JavaScript string built-ins the validators rely on, over `string` (a
 * sequence of characters): `trim`, `split` on one character, `replace` of the
 * first occurrence of a character, `parseInt(s, 10)` and `parseFloat`. Numbers
 * are exact (`int`, `real`); the rounding of IEEE doubles is not part of this
 * model.
 */
module JsText {
  import opened Wrappers
  import opened Ordering

  // ---------------------------------------------------------------------------
  // White space and trimming
  // ---------------------------------------------------------------------------

  /** The characters `String.prototype.trim` removes: WhiteSpace and LineTerminator. */
  predicate IsWhiteSpace(c: char) {
    c == '\t' || c == '\n' || c == '\U{000B}' || c == '\U{000C}' || c == '\r' || c == ' '
    || c == '\U{00A0}' || c == '\U{1680}' || ('\U{2000}' <= c <= '\U{200A}')
    || c == '\U{2028}' || c == '\U{2029}' || c == '\U{202F}' || c == '\U{205F}'
    || c == '\U{3000}' || c == '\U{FEFF}'
  }

  function TrimStart(s: string): (r: string)
    ensures |r| <= |s| && r == s[|s| - |r|..]
    ensures |r| > 0 ==> !IsWhiteSpace(r[0])
    ensures forall i :: 0 <= i < |s| - |r| ==> IsWhiteSpace(s[i])
  {
    if |s| > 0 && IsWhiteSpace(s[0]) then TrimStart(s[1..]) else s
  }

  function TrimEnd(s: string): (r: string)
    ensures |r| <= |s| && r == s[..|r|]
    ensures |r| > 0 ==> !IsWhiteSpace(r[|r| - 1])
    ensures forall i :: |r| <= i < |s| ==> IsWhiteSpace(s[i])
  {
    if |s| > 0 && IsWhiteSpace(s[|s| - 1]) then TrimEnd(s[..|s| - 1]) else s
  }

  /** `s.trim()`. */
  function Trim(s: string): string {
    TrimEnd(TrimStart(s))
  }

  /** How many characters `trim` cuts from the front of `s`. */
  function TrimmedFront(s: string): nat {
    |s| - |TrimStart(s)|
  }

  /**
   * What `trim` promises: the result is the piece of `s` that starts after the white
   * space cut from the front and is followed only by white space, and it neither starts
   * nor ends with white space.
   */
  lemma TrimSpec(s: string)
    ensures TrimmedFront(s) + |Trim(s)| <= |s|
    ensures Trim(s) == s[TrimmedFront(s)..TrimmedFront(s) + |Trim(s)|]
    ensures forall i :: 0 <= i < TrimmedFront(s) ==> IsWhiteSpace(s[i])
    ensures forall i :: TrimmedFront(s) + |Trim(s)| <= i < |s| ==> IsWhiteSpace(s[i])
    ensures |Trim(s)| > 0 ==> !IsWhiteSpace(Trim(s)[0]) && !IsWhiteSpace(Trim(s)[|Trim(s)| - 1])
  {
    var t := TrimStart(s);
    var r := TrimEnd(t);
    var lo := |s| - |t|;
    assert Trim(s) == r && TrimmedFront(s) == lo;
    assert r == s[lo..lo + |r|] by {
      assert t == s[lo..];
      assert r == t[..|r|];
    }
    forall i | lo + |r| <= i < |s| ensures IsWhiteSpace(s[i]) {
      assert s[i] == t[i - lo];
    }
    if |r| > 0 {
      assert r[0] == t[0];
    }
  }

  /** A string trims to the empty string iff it consists of white space only. */
  lemma {:induction false} TrimEmptyIffBlank(s: string)
    ensures |Trim(s)| == 0 <==> forall i :: 0 <= i < |s| ==> IsWhiteSpace(s[i])
  {
    var t := TrimStart(s);
    if |t| > 0 {
      assert !IsWhiteSpace(t[0]);
      assert s[|s| - |t|] == t[0];
    }
  }

  /** Trimming twice is trimming once. */
  lemma TrimIdempotent(s: string)
    ensures Trim(Trim(s)) == Trim(s)
  {
    var t := Trim(s);
    TrimSpec(s);
    TrimOfTrimmed(t);
  }

  /** A string with no white space at either end is its own trim. */
  lemma TrimOfTrimmed(t: string)
    requires |t| > 0 ==> !IsWhiteSpace(t[0]) && !IsWhiteSpace(t[|t| - 1])
    ensures Trim(t) == t
  {
    assert TrimStart(t) == t;
  }

  // ---------------------------------------------------------------------------
  // split, join, replace
  // ---------------------------------------------------------------------------

  function Count(s: string, c: char): nat {
    if |s| == 0 then 0 else (if s[0] == c then 1 else 0) + Count(s[1..], c)
  }

  /** `s.split(sep)` for a one-character separator; `"".split(sep)` is `[""]`. */
  function Split(s: string, sep: char): (parts: seq<string>)
    ensures |parts| >= 1
  {
    if |s| == 0 then [""]
    else
      var rest := Split(s[1..], sep);
      if s[0] == sep then [""] + rest
      else [[s[0]] + rest[0]] + rest[1..]
  }

  /** `parts.join(sep)`. */
  function Join(parts: seq<string>, sep: char): string
    requires |parts| >= 1
  {
    if |parts| == 1 then parts[0] else parts[0] + [sep] + Join(parts[1..], sep)
  }

  /** `split` cuts at every separator and nowhere else, and `join` puts the string back together. */
  lemma {:induction false} SplitSpec(s: string, sep: char)
    ensures |Split(s, sep)| == Count(s, sep) + 1
    ensures forall k :: 0 <= k < |Split(s, sep)| ==> sep !in Split(s, sep)[k]
    ensures Join(Split(s, sep), sep) == s
  {
    if |s| > 0 {
      var rest := Split(s[1..], sep);
      SplitSpec(s[1..], sep);
      if s[0] == sep {
        assert Split(s, sep)[1..] == rest;
        assert s == [sep] + s[1..];
      } else {
        var parts := Split(s, sep);
        assert parts[0] == [s[0]] + rest[0];
        assert parts[1..] == rest[1..];
        forall k | 0 <= k < |parts| ensures sep !in parts[k] {
          if k > 0 { assert parts[k] == rest[k]; }
        }
        if |rest| > 1 {
          assert Join(parts, sep) == parts[0] + [sep] + Join(rest[1..], sep);
          assert Join(rest, sep) == rest[0] + [sep] + Join(rest[1..], sep);
        }
      }
    }
  }

  /** Splitting `a + [sep] + b` where `a` has no separator yields `a` followed by the pieces of `b`. */
  lemma {:induction false} SplitAfterPiece(a: string, sep: char, b: string)
    requires sep !in a
    ensures Split(a + [sep] + b, sep) == [a] + Split(b, sep)
  {
    if |a| > 0 {
      assert (a + [sep] + b)[1..] == a[1..] + [sep] + b;
      SplitAfterPiece(a[1..], sep, b);
      assert a == [a[0]] + a[1..];
    } else {
      assert (a + [sep] + b)[1..] == b;
    }
  }

  /** A string without the separator splits into itself alone. */
  lemma {:induction false} SplitNone(a: string, sep: char)
    requires sep !in a
    ensures Split(a, sep) == [a]
  {
    if |a| > 0 {
      SplitNone(a[1..], sep);
      assert a == [a[0]] + a[1..];
    }
  }

  /** `s.replace(from, to)` with a one-character pattern: only the first occurrence is replaced. */
  function ReplaceFirst(s: string, from: char, to: char): (r: string)
    ensures |r| == |s|
  {
    if |s| == 0 then s
    else if s[0] == from then [to] + s[1..]
    else [s[0]] + ReplaceFirst(s[1..], from, to)
  }

  /** `replace` changes exactly the first occurrence and leaves every other character alone. */
  lemma {:induction false} ReplaceFirstSpec(a: string, from: char, to: char, b: string)
    requires from !in a
    ensures ReplaceFirst(a + [from] + b, from, to) == a + [to] + b
    ensures ReplaceFirst(a, from, to) == a
  {
    if |a| > 0 {
      assert (a + [from] + b)[1..] == a[1..] + [from] + b;
      ReplaceFirstSpec(a[1..], from, to, b);
      assert a == [a[0]] + a[1..];
    } else {
      assert (a + [from] + b)[1..] == b;
    }
  }

  // ---------------------------------------------------------------------------
  // Decimal digits
  // ---------------------------------------------------------------------------

  predicate IsDigit(c: char) {
    '0' <= c <= '9'
  }

  predicate AllDigits(s: string) {
    forall i :: 0 <= i < |s| ==> IsDigit(s[i])
  }

  function DigitValue(c: char): nat
    requires IsDigit(c)
  {
    (c as int - '0' as int) as nat
  }

  function DigitChar(n: nat): (c: char)
    requires n < 10
    ensures IsDigit(c) && DigitValue(c) == n
  {
    ('0' as int + n) as char
  }

  /** The number a string of decimal digits denotes (read left to right). */
  function DigitsValue(ds: string): nat
    requires AllDigits(ds)
  {
    if |ds| == 0 then 0 else DigitsValue(ds[..|ds| - 1]) * 10 + DigitValue(ds[|ds| - 1])
  }

  /** The longest prefix of `s` made of decimal digits. */
  function LeadingDigits(s: string): (ds: string)
    ensures AllDigits(ds) && |ds| <= |s| && ds == s[..|ds|]
    ensures |ds| < |s| ==> !IsDigit(s[|ds|])
  {
    if |s| > 0 && IsDigit(s[0]) then [s[0]] + LeadingDigits(s[1..]) else []
  }

  /** The decimal digits of a natural number, without leading zeros. */
  function NatToDigits(n: nat): (ds: string)
    ensures AllDigits(ds) && |ds| >= 1
  {
    if n < 10 then [DigitChar(n)] else NatToDigits(n / 10) + [DigitChar(n % 10)]
  }

  /** Writing a number in decimal and reading it back gives the number. */
  lemma {:induction false} NatToDigitsRoundTrip(n: nat)
    ensures DigitsValue(NatToDigits(n)) == n
  {
    if n >= 10 {
      NatToDigitsRoundTrip(n / 10);
      var ds := NatToDigits(n);
      assert ds[..|ds| - 1] == NatToDigits(n / 10);
    }
  }

  /** The digit prefix of `ds + t` is `ds` when `t` does not continue with a digit. */
  lemma {:induction false} LeadingDigitsOf(ds: string, t: string)
    requires AllDigits(ds)
    requires |t| > 0 ==> !IsDigit(t[0])
    ensures LeadingDigits(ds + t) == ds
  {
    if |ds| > 0 {
      assert (ds + t)[1..] == ds[1..] + t;
      LeadingDigitsOf(ds[1..], t);
      assert ds == [ds[0]] + ds[1..];
    } else {
      assert ds + t == t;
    }
  }

  // ---------------------------------------------------------------------------
  // parseInt(s, 10)
  // ---------------------------------------------------------------------------

  /** An optional leading sign: whether it is `-`, and what follows it. */
  function SignPrefix(s: string): (bool, string) {
    if |s| > 0 && (s[0] == '-' || s[0] == '+') then (s[0] == '-', s[1..]) else (false, s)
  }

  /**
   * `parseInt(s, 10)`: leading white space is skipped, an optional sign is read, then
   * the longest run of decimal digits; anything after it is ignored. `None` is `NaN`
   * (no digit at all).
   */
  function ParseInt(s: string): (r: Option<int>)
    ensures r.None? <==> LeadingDigits(SignPrefix(TrimStart(s)).1) == []
  {
    var (negative, body) := SignPrefix(TrimStart(s));
    var ds := LeadingDigits(body);
    if ds == [] then None
    else Some(if negative then -(DigitsValue(ds) as int) else DigitsValue(ds))
  }

  /** `parseInt` reads back any run of digits exactly, leading zeros included. */
  lemma ParseIntOfDigits(ds: string)
    requires AllDigits(ds) && |ds| > 0
    ensures ParseInt(ds) == Some(DigitsValue(ds))
  {
    assert !IsWhiteSpace(ds[0]);
    assert TrimStart(ds) == ds;
    assert SignPrefix(ds) == (false, ds);
    LeadingDigitsOf(ds, []);
    assert ds + [] == ds;
    assert LeadingDigits(ds) == ds;
  }

  /** `parseInt` reads the digits at the front and ignores whatever follows them. */
  lemma ParseIntReadsLeadingDigits(ds: string, t: string)
    requires AllDigits(ds) && |ds| > 0
    requires |t| > 0 ==> !IsDigit(t[0])
    ensures ParseInt(ds + t) == Some(DigitsValue(ds))
  {
    var s := ds + t;
    assert s[0] == ds[0] && IsDigit(s[0]);
    assert !IsWhiteSpace(s[0]);
    assert TrimStart(s) == s;
    assert SignPrefix(s) == (false, s);
    LeadingDigitsOf(ds, t);
    assert LeadingDigits(s) == ds;
  }

  // ---------------------------------------------------------------------------
  // parseFloat(s)
  // ---------------------------------------------------------------------------

  /** The outcome of `parseFloat`: a finite value, an infinity, or `NaN`. */
  datatype Num = Finite(value: real) | Infinite(negative: bool) | NaN

  function Pow10(n: nat): (p: nat)
    ensures p >= 1
  {
    if n == 0 then 1 else 10 * Pow10(n - 1)
  }

  /** 10 raised to an integer power, as an exact real. */
  function Scale(e: int): (r: real)
    ensures r > 0.0
  {
    if e >= 0 then Pow10(e) as real else 1.0 / (Pow10(-e) as real)
  }

  /**
   * The exponent part that may follow a decimal literal: `e` or `E`, an optional
   * sign and at least one digit. Without a well-formed exponent part it is 0 (the
   * characters are simply not read).
   */
  function ExponentPart(s: string): int {
    if |s| > 0 && (s[0] == 'e' || s[0] == 'E') then
      var (negative, body) := SignPrefix(s[1..]);
      var ds := LeadingDigits(body);
      if ds == [] then 0
      else if negative then -(DigitsValue(ds) as int) else DigitsValue(ds)
    else 0
  }

  function InfinityText(): string {
    "Infinity"
  }

  predicate StartsWithInfinity(s: string) {
    |s| >= |InfinityText()| && s[..|InfinityText()|] == InfinityText()
  }

  /** The pieces of an unsigned decimal literal: integer digits, fraction digits, exponent. */
  datatype DecimalLiteral = DecimalLiteral(intDigits: string, fracDigits: string, exponent: int)

  /**
   * The longest unsigned decimal literal at the start of `s`: digits, then optionally `.`
   * and more digits (at least one digit in all), then an optional exponent part.
   */
  function DecimalPrefix(s: string): (lit: Option<DecimalLiteral>)
    ensures lit.Some? ==> AllDigits(lit.value.intDigits) && AllDigits(lit.value.fracDigits)
    ensures lit.None? <==> LeadingDigits(s) == [] && !(|s| > 1 && s[0] == '.' && IsDigit(s[1]))
  {
    var intDigits := LeadingDigits(s);
    var afterInt := s[|intDigits|..];
    var hasPoint := |afterInt| > 0 && afterInt[0] == '.';
    var fracDigits := if hasPoint then LeadingDigits(afterInt[1..]) else [];
    if |intDigits| + |fracDigits| == 0 then None
    else
      var consumed := |intDigits| + (if hasPoint then 1 + |fracDigits| else 0);
      Some(DecimalLiteral(intDigits, fracDigits, ExponentPart(s[consumed..])))
  }

  /** The exact value of a decimal literal. */
  function LiteralValue(lit: DecimalLiteral): real
    requires AllDigits(lit.intDigits) && AllDigits(lit.fracDigits)
  {
    DigitsValue(lit.intDigits + lit.fracDigits) as real * Scale(lit.exponent - |lit.fracDigits|)
  }

  /**
   * `parseFloat(s)`: leading white space is skipped, then the longest prefix that is a
   * decimal literal is read (optional sign, then `Infinity` or an unsigned decimal
   * literal); anything after it is ignored. `NaN` when no such prefix exists.
   */
  function ParseFloat(s: string): (r: Num)
    ensures r.NaN? <==> !StartsWithInfinity(SignPrefix(TrimStart(s)).1) && DecimalPrefix(SignPrefix(TrimStart(s)).1).None?
  {
    var (negative, body) := SignPrefix(TrimStart(s));
    if StartsWithInfinity(body) then Infinite(negative)
    else
      match DecimalPrefix(body)
      case None => NaN
      case Some(lit) =>
        var magnitude := LiteralValue(lit);
        Finite(if negative then -magnitude else magnitude)
  }

  /** A run of digits, a `.` and a run of digits, with nothing after them, is read as one literal with no exponent. */
  lemma {:induction false} DecimalPrefixOfPointed(ip: string, fp: string)
    requires AllDigits(ip) && AllDigits(fp) && |ip| > 0
    ensures DecimalPrefix(ip + "." + fp) == Some(DecimalLiteral(ip, fp, 0))
  {
    var s := ip + "." + fp;
    assert s == ip + ("." + fp);
    LeadingDigitsOf(ip, "." + fp);
    var afterInt := s[|ip|..];
    assert afterInt == "." + fp;
    assert afterInt[1..] == fp + [];
    LeadingDigitsOf(fp, []);
    assert s[|ip| + 1 + |fp|..] == [];
  }

  /** A run of digits with nothing after it is read as one literal with no fraction and no exponent. */
  lemma DecimalPrefixOfDigits(ds: string)
    requires AllDigits(ds) && |ds| > 0
    ensures DecimalPrefix(ds) == Some(DecimalLiteral(ds, [], 0))
  {
    LeadingDigitsOf(ds, []);
    assert ds + [] == ds;
    assert ds[|ds|..] == [];
  }

  // ---------------------------------------------------------------------------
  // The default order of Array.prototype.sort
  // ---------------------------------------------------------------------------

  /** Lexicographic order on strings, character by character (a proper prefix comes first). */
  predicate StringLess(a: string, b: string) {
    if |a| == 0 then |b| > 0
    else if |b| == 0 then false
    else a[0] < b[0] || (a[0] == b[0] && StringLess(a[1..], b[1..]))
  }

  lemma {:induction false} StringLessIrreflexive(a: string)
    ensures !StringLess(a, a)
  {
    if |a| > 0 { StringLessIrreflexive(a[1..]); }
  }

  lemma {:induction false} StringLessTransitive(a: string, b: string, c: string)
    requires StringLess(a, b) && StringLess(b, c)
    ensures StringLess(a, c)
  {
    if |a| > 0 && a[0] == b[0] && b[0] == c[0] {
      StringLessTransitive(a[1..], b[1..], c[1..]);
    }
  }

  lemma {:induction false} StringLessTotal(a: string, b: string)
    requires a != b
    ensures StringLess(a, b) || StringLess(b, a)
  {
    if |a| > 0 && |b| > 0 && a[0] == b[0] {
      assert a == [a[0]] + a[1..] && b == [b[0]] + b[1..];
      StringLessTotal(a[1..], b[1..]);
    }
  }

  /** The string order is a strict total order, so sorting distinct strings is well defined. */
  lemma StringOrder()
    ensures StrictTotalOrder(StringLess)
  {
    forall a ensures !StringLess(a, a) { StringLessIrreflexive(a); }
    forall a, b, c | StringLess(a, b) && StringLess(b, c) ensures StringLess(a, c) {
      StringLessTransitive(a, b, c);
    }
    forall a, b | a != b ensures StringLess(a, b) || StringLess(b, a) { StringLessTotal(a, b); }
  }
}
