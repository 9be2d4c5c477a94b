/**
  Normalisation of Russian phone numbers (`format_russian_phone`).

  The raw input is reduced to its digits, a leading `7` or `8` is rewritten
  to the `+7` country prefix, and a 12-character result is laid out as
  `+7 (ddd) ddd-dd-dd`. Anything else is returned exactly as it was given.
 */
module Phone {

  predicate IsDigit(c: char) {
    '0' <= c <= '9'
  }

  predicate AllDigits(s: string) {
    forall i :: 0 <= i < |s| ==> IsDigit(s[i])
  }

  /** The digits of `s` in their original order: what stripping every
      non-digit character leaves. */
  function Digits(s: string): (d: string)
    ensures |d| <= |s|
    ensures AllDigits(d)
  {
    if s == [] then [] else (if IsDigit(s[0]) then [s[0]] else []) + Digits(s[1..])
  }

  /** The country-code rewrite: a leading `7` becomes `+7`, a leading `8`
      becomes `+7`, any other digit string is kept as it is. */
  function WithCountryCode(d: string): string {
    if |d| > 0 && d[0] == '7' then "+" + d
    else if |d| > 0 && d[0] == '8' then "+7" + d[1..]
    else d
  }

  function FormatRussianPhone(phone: string): (r: string)
    ensures r == phone || (|Digits(phone)| >= 10 && r == DisplayForm(LastTen(Digits(phone))))
  {
    var p := WithCountryCode(Digits(phone));
    if |p| == 12 then
      CountryCodeTail(Digits(phone));
      DisplayForm(p[2..])
    else
      phone
  }

  /** Whenever the rewrite yields twelve characters, the ten after its first
      two characters are the last ten digits. */
  lemma CountryCodeTail(d: string)
    requires |WithCountryCode(d)| == 12
    ensures |d| >= 10 && WithCountryCode(d)[2..] == LastTen(d)
  {
    if |d| > 0 && d[0] == '7' {
      assert WithCountryCode(d) == "+" + d;
      assert ("+" + d)[2..] == d[1..];
    } else if |d| > 0 && d[0] == '8' {
      assert WithCountryCode(d) == "+7" + d[1..];
      assert ("+7" + d[1..])[2..] == d[1..];
    } else {
      assert WithCountryCode(d) == d;
    }
  }

  /** The last ten characters of a digit string. */
  function LastTen(d: string): (t: string)
    requires |d| >= 10
    ensures |t| == 10 && t == d[|d| - 10..]
  {
    d[|d| - 10..]
  }

  /** The display form `+7 (ddd) ddd-dd-dd` of a ten-digit national number:
      the layout the normaliser gives the characters after the `+7`. */
  function DisplayForm(t: string): (r: string)
    requires |t| == 10
    ensures |r| == 18
  {
    "+7 (" + t[0..3] + ") " + t[3..6] + "-" + t[6..8] + "-" + t[8..10]
  }

  /** The digit strings that get the display form: eleven digits behind a
      `7` or `8`, or twelve digits behind anything else. */
  predicate Formattable(d: string) {
    || (|d| == 11 && (d[0] == '7' || d[0] == '8'))
    || (|d| == 12 && d[0] != '7' && d[0] != '8')
  }

  /** The shape `+7 (ddd) ddd-dd-dd`, character by character. */
  predicate Canonical(s: string) {
    && |s| == 18
    && s[0] == '+' && s[1] == '7' && s[2] == ' ' && s[3] == '('
    && IsDigit(s[4]) && IsDigit(s[5]) && IsDigit(s[6])
    && s[7] == ')' && s[8] == ' '
    && IsDigit(s[9]) && IsDigit(s[10]) && IsDigit(s[11])
    && s[12] == '-'
    && IsDigit(s[13]) && IsDigit(s[14])
    && s[15] == '-'
    && IsDigit(s[16]) && IsDigit(s[17])
  }

  // ---------------------------------------------------------------------
  // Digits

  lemma {:induction false} DigitsAppend(a: string, b: string)
    ensures Digits(a + b) == Digits(a) + Digits(b)
  {
    if a == [] {
      assert a + b == b;
    } else {
      var head := if IsDigit(a[0]) then [a[0]] else [];
      assert (a + b)[0] == a[0];
      assert (a + b)[1..] == a[1..] + b;
      assert Digits(a + b) == head + Digits(a[1..] + b);
      DigitsAppend(a[1..], b);
      assert head + (Digits(a[1..]) + Digits(b)) == (head + Digits(a[1..])) + Digits(b);
    }
  }

  /** A single character is kept exactly when it is a digit; with
      `DigitsAppend` this fixes `Digits` on every string, character by
      character and in order. */
  lemma DigitsOfChar(c: char)
    ensures Digits([c]) == if IsDigit(c) then [c] else []
  {
    assert [c][1..] == [];
  }

  /** Every digit of the input is kept, and nothing else. */
  lemma {:induction false} DigitsKeepsExactlyDigits(s: string)
    ensures forall c :: c in Digits(s) <==> c in s && IsDigit(c)
  {
    if s != [] {
      DigitsKeepsExactlyDigits(s[1..]);
      assert s == [s[0]] + s[1..];
    }
  }

  lemma {:induction false} DigitsOfDigits(s: string)
    requires AllDigits(s)
    ensures Digits(s) == s
  {
    if s != [] {
      DigitsOfDigits(s[1..]);
    }
  }

  /** The punctuation of the display form carries one digit, the `7`. */
  lemma DigitsOfPunctuation()
    ensures Digits("+7 (") == "7" && Digits(") ") == [] && Digits("-") == []
  {
    assert "+7 ("[1..] == "7 (";
    assert "7 ("[1..] == " (";
    assert " ("[1..] == "(";
    assert "("[1..] == "";
    assert ") "[1..] == " ";
    assert " "[1..] == "";
    assert "-"[1..] == "";
  }

  /** Appending a piece of digits or of punctuation to a string. */
  lemma DigitsSnoc(prefix: string, piece: string, known: string)
    requires Digits(prefix) == known
    ensures Digits(prefix + piece) == known + Digits(piece)
  {
    DigitsAppend(prefix, piece);
  }

  /** The digits of a display form are `7` followed by the national number. */
  lemma DigitsOfDisplayForm(t: string)
    requires |t| == 10 && AllDigits(t)
    ensures Digits(DisplayForm(t)) == "7" + t
  {
    var a, b, c, d := t[0..3], t[3..6], t[6..8], t[8..10];
    DigitsOfPunctuation();
    DigitsOfDigits(a);
    DigitsOfDigits(b);
    DigitsOfDigits(c);
    DigitsOfDigits(d);
    // Each step appends one piece; `kN` is the digits of the prefix `sN`.
    var s1, k1 := "+7 (" + a, "7" + a;
    DigitsSnoc("+7 (", a, "7");
    var s2, k2 := s1 + ") ", k1 + [];
    DigitsSnoc(s1, ") ", k1);
    var s3, k3 := s2 + b, k2 + b;
    DigitsSnoc(s2, b, k2);
    var s4, k4 := s3 + "-", k3 + [];
    DigitsSnoc(s3, "-", k3);
    var s5, k5 := s4 + c, k4 + c;
    DigitsSnoc(s4, c, k4);
    var s6, k6 := s5 + "-", k5 + [];
    DigitsSnoc(s5, "-", k5);
    var s7, k7 := s6 + d, k6 + d;
    DigitsSnoc(s6, d, k6);
    assert s7 == DisplayForm(t);
    assert k7 == "7" + t by {
      assert t == a + b + c + d;
    }
  }

  // ---------------------------------------------------------------------
  // Properties of the normaliser

  /** The display form is used exactly for the formattable digit strings;
      every other input comes back verbatim. */
  lemma FormatExactlyWhenFormattable(phone: string)
    ensures var d := Digits(phone);
      FormatRussianPhone(phone) == if Formattable(d) then DisplayForm(LastTen(d)) else phone
  {
    var d := Digits(phone);
    var p := WithCountryCode(d);
    if Formattable(d) {
      assert |p| == 12 && p[2..] == LastTen(d);
    } else {
      assert |p| != 12;
    }
  }

  lemma DisplayFormIsCanonical(t: string)
    requires |t| == 10 && AllDigits(t)
    ensures Canonical(DisplayForm(t))
  {
  }

  /** Every canonical string is the display form of its own ten digits. */
  lemma CanonicalIsDisplayForm(s: string)
    requires Canonical(s)
    ensures var t := s[4..7] + s[9..12] + s[13..15] + s[16..18];
      |t| == 10 && AllDigits(t) && s == DisplayForm(t)
  {
    var t := s[4..7] + s[9..12] + s[13..15] + s[16..18];
    assert DisplayForm(t) == s by {
      assert t[0..3] == s[4..7];
      assert t[3..6] == s[9..12];
      assert t[6..8] == s[13..15];
      assert t[8..10] == s[16..18];
    }
  }

  /** A number that is already in display form is left as it is. */
  lemma CanonicalIsFixedPoint(s: string)
    requires Canonical(s)
    ensures FormatRussianPhone(s) == s
  {
    CanonicalIsDisplayForm(s);
    var t := s[4..7] + s[9..12] + s[13..15] + s[16..18];
    DigitsOfDisplayForm(t);
    FormatExactlyWhenFormattable(s);
    assert LastTen("7" + t) == t;
  }

  /** Normalisation is idempotent. */
  lemma FormatIdempotent(phone: string)
    ensures FormatRussianPhone(FormatRussianPhone(phone)) == FormatRussianPhone(phone)
  {
    var d := Digits(phone);
    FormatExactlyWhenFormattable(phone);
    if Formattable(d) {
      var t := LastTen(d);
      assert AllDigits(t);
      DisplayFormIsCanonical(t);
      CanonicalIsFixedPoint(DisplayForm(t));
    }
  }

  /** A trunk-prefix `8` and a country-code `7` in front of the same ten
      digits give the same key. */
  lemma TrunkAndCountryPrefixAgree(x: string, y: string, t: string)
    requires |t| == 10
    requires Digits(x) == "8" + t && Digits(y) == "7" + t
    ensures FormatRussianPhone(x) == FormatRussianPhone(y) == DisplayForm(t)
  {
    FormatExactlyWhenFormattable(x);
    FormatExactlyWhenFormattable(y);
    assert LastTen("8" + t) == t;
    assert LastTen("7" + t) == t;
  }

  /** Two formattable inputs with the same digits normalise alike, however
      they are punctuated. */
  lemma SameDigitsSameKey(x: string, y: string)
    requires Digits(x) == Digits(y) && Formattable(Digits(x))
    ensures FormatRussianPhone(x) == FormatRussianPhone(y)
  {
    FormatExactlyWhenFormattable(x);
    FormatExactlyWhenFormattable(y);
  }
}
