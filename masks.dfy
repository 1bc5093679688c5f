/**
 * The price input mask of src/utils/masks.ts.
 *
 * `clear` keeps the ASCII digits of the typed text and reads them as a base-10
 * number; `currency` renders that number, pads it with zeros to at least three
 * characters, puts a '.' before the last two and hands the result to a
 * locale formatter. Numbers are exact naturals here.
 */
module Masks {
  import opened Wrappers

  /** What the regular expression class `\d` matches: '0' to '9' only. */
  predicate IsDigit(c: char) {
    '0' <= c <= '9'
  }

  predicate AllDigits(s: string) {
    forall i :: 0 <= i < |s| ==> IsDigit(s[i])
  }

  function DigitValue(c: char): (d: nat)
    requires IsDigit(c)
    ensures d < 10
  {
    c as int - '0' as int
  }

  function DigitChar(d: nat): (c: char)
    requires d < 10
    ensures IsDigit(c) && DigitValue(c) == d
  {
    ('0' as int + d) as char
  }

  /** 10 to the power k. */
  function Pow10(k: nat): nat {
    if k == 0 then 1 else 10 * Pow10(k - 1)
  }

  /** `text.replace(/\D/g, "")`: the digits of `s`, in order. */
  function Digits(s: string): (r: string)
    ensures AllDigits(r)
    ensures |r| <= |s|
  {
    if s == [] then []
    else (if IsDigit(s[0]) then [s[0]] else []) + Digits(s[1..])
  }

  /** `Number` of a digit-only string, exactly; `Number("")` is 0. A string of k digits reads below 10^k. */
  function Value(s: string): (v: nat)
    requires AllDigits(s)
    ensures v < Pow10(|s|)
  {
    if s == [] then 0
    else
      var p := s[..|s| - 1];
      var d := DigitValue(s[|s| - 1]);
      var v := Value(p) * 10 + d;
      assert v < Pow10(|s|) by {
        assert Value(p) + 1 <= Pow10(|p|);
        assert (Value(p) + 1) * 10 <= Pow10(|p|) * 10;
      }
      v
  }

  /**
   * `clear`: the base-10 value of the digits of the text. The value has no
   * more digits than the text, and text without digits reads as 0.
   */
  function Clear(text: string): (n: nat)
    ensures n < Pow10(|Digits(text)|)
    ensures (forall i :: 0 <= i < |text| ==> !IsDigit(text[i])) ==> n == 0
  {
    DigitsEmpty(text);
    Value(Digits(text))
  }

  /** Number of decimal digits of `n` (1 for 0). */
  function NumDigits(n: nat): (k: nat)
    ensures k >= 1
  {
    if n < 10 then 1 else 1 + NumDigits(n / 10)
  }

  /** `n.toString()` for a non-negative integer: its decimal digits without leading zeros. */
  function ToDecimal(n: nat): (r: string)
    ensures AllDigits(r)
    ensures |r| == NumDigits(n)
    ensures r[0] != '0' || n == 0
    ensures Value(r) == n
  {
    if n < 10 then [DigitChar(n)]
    else
      var p := ToDecimal(n / 10);
      var r := p + [DigitChar(n % 10)];
      assert r[..|r| - 1] == p;
      r
  }

  function Zeros(k: nat): (z: string)
    ensures |z| == k && AllDigits(z)
    ensures forall i :: 0 <= i < k ==> z[i] == '0'
  {
    seq(k, _ => '0')
  }

  function Max(a: nat, b: nat): (m: nat)
    ensures m >= a && m >= b && (m == a || m == b)
  {
    if a >= b then a else b
  }

  /** `s.padStart(width, "0")`: at least `width` characters, zeros followed by `s`. */
  function PadStart(s: string, width: nat): (r: string)
    ensures |r| == Max(width, |s|)
    ensures r[|r| - |s|..] == s
    ensures forall i :: 0 <= i < |r| - |s| ==> r[i] == '0'
  {
    if |s| >= width then s else Zeros(width - |s|) + s
  }

  /** `clear(text).toString().padStart(3, "0")` with `n == clear(text)`: a digit string of max(3, digits of n) characters. */
  function Padded(n: nat): (r: string)
    ensures |r| == Max(3, NumDigits(n))
    ensures AllDigits(r)
  {
    var d := ToDecimal(n);
    var r := PadStart(d, 3);
    assert AllDigits(r) by {
      forall i | 0 <= i < |r| ensures IsDigit(r[i]) {
        if i >= |r| - |d| {
          assert r[i] == r[|r| - |d|..][i - (|r| - |d|)];
        }
      }
    }
    r
  }

  /** `digits.slice(-2)`: the last two characters. */
  function Cents(digits: string): (c: string)
    requires |digits| >= 2
    ensures |c| == 2 && c[0] == digits[|digits| - 2] && c[1] == digits[|digits| - 1]
  {
    digits[|digits| - 2..]
  }

  /** `digits.slice(0, -2)`: all but the last two characters, so that it and the cents make up the whole. */
  function Units(digits: string): (u: string)
    requires |digits| >= 2
    ensures |u| == |digits| - 2 && u + Cents(digits) == digits
  {
    var u := digits[..|digits| - 2];
    assert u + Cents(digits) == digits;
    u
  }

  /**
   * The string handed to the formatter: the padded digits of `n` with a '.'
   * before the last two.
   */
  function Layout(n: nat): (r: string)
    ensures |r| == Max(3, NumDigits(n)) + 1
    ensures r[|r| - 3] == '.'
    ensures AllDigits(r[..|r| - 3]) && AllDigits(r[|r| - 2..])
  {
    var digits := Padded(n);
    DotSplit(Units(digits), Cents(digits));
    assert AllDigits(Units(digits)) && AllDigits(Cents(digits)) by {
      assert forall i :: 0 <= i < |Units(digits)| ==> Units(digits)[i] == digits[i];
    }
    Units(digits) + "." + Cents(digits)
  }

  /**
   * `currency(text)`. `numeric` is `Math.round(Number(text)).toString()`, or
   * `None` when `Number(text)` is NaN; `format` is `transformToCurrency`
   * applied to `Number` of its argument. The formatter receives the layout
   * of what `clear` reads from the text, or from the rounded number when
   * the text is numeric.
   */
  function Currency(text: string, numeric: Option<string>, format: string -> string): (r: string)
    ensures numeric.None? ==> r == format(Layout(Clear(text)))
    ensures numeric.Some? ==> r == format(Layout(Clear(numeric.value)))
  {
    var t := numeric.GetOr(text);
    format(Layout(Clear(t)))
  }

  // ---------------------------------------------------------------------------
  // Digit filtering

  lemma {:induction false} DigitsAppend(a: string, b: string)
    ensures Digits(a + b) == Digits(a) + Digits(b)
  {
    if a == [] {
      assert a + b == b;
    } else {
      var ab := a + b;
      assert ab[0] == a[0] && ab[1..] == a[1..] + b;
      DigitsAppend(a[1..], b);
      var h := if IsDigit(a[0]) then [a[0]] else [];
      assert Digits(ab) == h + (Digits(a[1..]) + Digits(b));
      assert Digits(a) == h + Digits(a[1..]);
    }
  }

  lemma DigitsOfChar(c: char)
    ensures Digits([c]) == if IsDigit(c) then [c] else []
  {
  }

  /** A digit-only string is its own filtering. */
  lemma {:induction false} DigitsOfDigits(s: string)
    requires AllDigits(s)
    ensures Digits(s) == s
  {
    if s != [] {
      DigitsOfDigits(s[1..]);
    }
  }

  /** Filtering splits the text into its digits and the characters that are removed. */
  lemma {:induction false} DigitsPartition(s: string)
    ensures multiset(Digits(s)) + multiset(NonDigits(s)) == multiset(s)
  {
    if s != [] {
      var c, t := s[0], s[1..];
      assert s == [c] + t;
      FilterCons(c, t);
      DigitsPartition(t);
      MultisetOfCons(c, t);
      if IsDigit(c) {
        MultisetOfCons(c, Digits(t));
      } else {
        MultisetOfCons(c, NonDigits(t));
      }
    }
  }

  /** One step of the filter: the first character goes to the digits or to the removed characters. */
  lemma FilterCons(c: char, t: string)
    ensures Digits([c] + t) == (if IsDigit(c) then [c] else []) + Digits(t)
    ensures NonDigits([c] + t) == (if IsDigit(c) then [] else [c]) + NonDigits(t)
  {
    var s := [c] + t;
    assert s[0] == c && s[1..] == t;
  }

  lemma MultisetOfCons(c: char, t: string)
    ensures multiset([c] + t) == multiset{c} + multiset(t)
  {
  }

  /** The characters `replace(/\D/g, "")` removes. */
  function NonDigits(s: string): (r: string) {
    if s == [] then []
    else (if IsDigit(s[0]) then [] else [s[0]]) + NonDigits(s[1..])
  }

  /** Every removed character is a non-digit. */
  lemma {:induction false} NonDigitsAreNonDigits(s: string)
    ensures forall i :: 0 <= i < |NonDigits(s)| ==> !IsDigit(NonDigits(s)[i])
  {
    if s != [] {
      NonDigitsAreNonDigits(s[1..]);
    }
  }

  /** No digits are kept exactly when the text holds no digit. */
  lemma {:induction false} DigitsEmpty(s: string)
    ensures Digits(s) == [] <==> forall i :: 0 <= i < |s| ==> !IsDigit(s[i])
  {
    if s != [] {
      DigitsEmpty(s[1..]);
      assert forall i :: 1 <= i < |s| ==> s[i] == s[1..][i - 1];
    }
  }

  // ---------------------------------------------------------------------------
  // Reading digit strings

  /** Reading a concatenation shifts the left part by the length of the right. */
  lemma {:induction false} ValueAppend(a: string, b: string)
    requires AllDigits(a) && AllDigits(b)
    ensures AllDigits(a + b)
    ensures Value(a + b) == Value(a) * Pow10(|b|) + Value(b)
  {
    var ab := a + b;
    assert AllDigits(ab) by {
      forall i | 0 <= i < |ab| ensures IsDigit(ab[i]) {
        if i < |a| { assert ab[i] == a[i]; } else { assert ab[i] == b[i - |a|]; }
      }
    }
    if b == [] {
      assert ab == a;
    } else {
      var b' := b[..|b| - 1];
      var d := DigitValue(b[|b| - 1]);
      assert ab[..|ab| - 1] == a + b';
      assert ab[|ab| - 1] == b[|b| - 1];
      ValueAppend(a, b');
      assert Value(ab) == Value(a + b') * 10 + d;
      assert Pow10(|b|) == 10 * Pow10(|b'|);
      assert Value(b) == Value(b') * 10 + d;
      ShiftDigit(Value(a), Pow10(|b'|), Value(b'), d);
    }
  }

  lemma ShiftDigit(x: nat, p: nat, y: nat, d: nat)
    ensures (x * p + y) * 10 + d == x * (10 * p) + (y * 10 + d)
  {
  }

  lemma {:induction false} ValueOfZeros(k: nat)
    ensures Value(Zeros(k)) == 0
  {
    if k > 0 {
      assert Zeros(k)[..k - 1] == Zeros(k - 1);
      ValueOfZeros(k - 1);
    }
  }

  /** Leading zeros do not change the value. */
  lemma LeadingZeros(k: nat, s: string)
    requires AllDigits(s)
    ensures AllDigits(Zeros(k) + s)
    ensures Value(Zeros(k) + s) == Value(s)
  {
    ValueAppend(Zeros(k), s);
    ValueOfZeros(k);
  }

  /** A digit string that does not start with '0' reads as a positive number. */
  lemma {:induction false} ValuePositive(s: string)
    requires AllDigits(s) && s != [] && s[0] != '0'
    ensures Value(s) >= 1
  {
    if |s| > 1 {
      ValuePositive(s[..|s| - 1]);
    }
  }

  lemma DigitCharOfValue(c: char)
    requires IsDigit(c)
    ensures DigitChar(DigitValue(c)) == c
  {
  }

  /** Canonical digit strings are exactly the renderings of their values. */
  lemma {:induction false} ToDecimalOfValue(s: string)
    requires AllDigits(s) && s != []
    requires s[0] != '0' || |s| == 1
    ensures ToDecimal(Value(s)) == s
  {
    var c := s[|s| - 1];
    DigitCharOfValue(c);
    if |s| == 1 {
      assert s == [c];
    } else {
      var p := s[..|s| - 1];
      ValuePositive(p);
      ToDecimalOfValue(p);
      var n := Value(s);
      DivMod10(n, Value(p), DigitValue(c));
      assert ToDecimal(n) == ToDecimal(n / 10) + [DigitChar(n % 10)];
      assert s == p + [c];
    }
  }

  // ---------------------------------------------------------------------------
  // Properties of clear

  /** `clear` only looks at the digits. */
  lemma ClearOfDigits(s: string)
    ensures Clear(Digits(s)) == Clear(s)
  {
    DigitsOfDigits(Digits(s));
  }

  /** Inserting a non-digit character anywhere leaves `clear` unchanged. */
  lemma ClearIgnoresInsertion(a: string, c: char, b: string)
    requires !IsDigit(c)
    ensures Clear(a + [c] + b) == Clear(a + b)
  {
    DigitsAppend(a + [c], b);
    DigitsAppend(a, [c]);
    DigitsOfChar(c);
    DigitsAppend(a, b);
    assert Digits(a + [c]) == Digits(a) + [];
    assert Digits(a + [c]) + Digits(b) == Digits(a) + Digits(b);
  }

  /** Round trip: `clear` of the decimal rendering of n, with any leading zeros, is n. */
  lemma ClearToDecimal(n: nat, k: nat)
    ensures Clear(ToDecimal(n)) == n
    ensures Clear(Zeros(k) + ToDecimal(n)) == n
  {
    DigitsOfDigits(ToDecimal(n));
    LeadingZeros(k, ToDecimal(n));
    DigitsOfDigits(Zeros(k) + ToDecimal(n));
  }

  // ---------------------------------------------------------------------------
  // Properties of the layout

  /** The padded string is zeros followed by the rendering of n, and reads as n. */
  lemma PaddedShape(n: nat)
    ensures Padded(n) == Zeros(|Padded(n)| - NumDigits(n)) + ToDecimal(n)
    ensures Value(Padded(n)) == n
  {
    var d := ToDecimal(n);
    var k := if |d| >= 3 then 0 else 3 - |d|;
    assert Padded(n) == Zeros(k) + d by {
      if |d| >= 3 {
        assert Zeros(0) + d == d;
      }
    }
    LeadingZeros(k, d);
  }

  /** A units part, a '.' and two cents characters can be taken apart again. */
  lemma DotSplit(u: string, c: string)
    requires |c| == 2
    ensures var r := u + "." + c;
      |r| == |u| + 3 && r[|r| - 3] == '.' && r[..|r| - 3] == u && r[|r| - 2..] == c
  {
    var r := u + "." + c;
    assert r[..|r| - 3] == u;
    assert r[|r| - 2..] == c;
  }

  /** The laid-out number splits at its '.' into the units and cents of the padded digits. */
  lemma LayoutSplit(n: nat)
    ensures |Padded(n)| >= 3 && AllDigits(Padded(n))
    ensures var r := Layout(n);
      r[..|r| - 3] == Units(Padded(n)) && r[|r| - 2..] == Cents(Padded(n))
    ensures Padded(n) == Units(Padded(n)) + Cents(Padded(n))
  {
    var digits := Padded(n);
    DotSplit(Units(digits), Cents(digits));
    assert Layout(n) == Units(digits) + "." + Cents(digits);
    assert digits == Units(digits) + Cents(digits);
  }

  /** The part before the '.' reads as n / 100, the two after it as n % 100. */
  lemma LayoutValue(n: nat)
    ensures var r := Layout(n);
      |r[..|r| - 3]| >= 1 && |r[|r| - 2..]| == 2 &&
      Value(r[..|r| - 3]) == n / 100 && Value(r[|r| - 2..]) == n % 100
  {
    var digits := Padded(n);
    LayoutSplit(n);
    PaddedShape(n);
    var u, c := Units(digits), Cents(digits);
    ValueAppend(u, c);
    assert Pow10(|c|) == 100;
    DivMod100(n, Value(u), Value(c));
  }

  lemma DivMod100(n: nat, q: nat, m: nat)
    requires n == q * 100 + m && m < 100
    ensures n / 100 == q && n % 100 == m
  {
  }

  lemma DigitsOfLayout(n: nat)
    ensures Digits(Layout(n)) == Padded(n)
  {
    var digits := Padded(n);
    LayoutParts(n);
    DigitsOfParts(Units(digits), Cents(digits));
  }

  /** Filtering units, '.' and cents drops just the '.'. */
  lemma DigitsOfParts(u: string, c: string)
    requires AllDigits(u) && AllDigits(c)
    ensures Digits(u + "." + c) == u + c
  {
    DigitsAppend(u, ".");
    DigitsOfChar('.');
    DigitsOfDigits(u);
    assert Digits(u + ".") == u + [];
    assert u + [] == u;
    DigitsAppend(u + ".", c);
    DigitsOfDigits(c);
  }

  /** `clear` of the laid-out number gives n back. */
  lemma ClearLayout(n: nat)
    ensures Clear(Layout(n)) == n
  {
    DigitsOfLayout(n);
    PaddedShape(n);
  }

  /** Typing a digit after the laid-out number shifts it one place: 10 n + d. */
  lemma ClearLayoutTyped(n: nat, c: char)
    requires IsDigit(c)
    ensures Clear(Layout(n) + [c]) == 10 * n + DigitValue(c)
  {
    DigitsAppend(Layout(n), [c]);
    DigitsOfLayout(n);
    PaddedShape(n);
    var s := Padded(n) + [c];
    assert s[..|s| - 1] == Padded(n);
  }

  /** Deleting the last character of the laid-out number drops the last cent digit: n / 10. */
  lemma ClearLayoutErased(n: nat)
    ensures var r := Layout(n); Clear(r[..|r| - 1]) == n / 10
  {
    var digits := Padded(n);
    LayoutParts(n);
    PaddedShape(n);
    ClearDropLast(Units(digits), Cents(digits));
  }

  /** A digit-free prefix, such as the currency sign of the formatted amount, does not change what `clear` reads. */
  lemma ClearIgnoresPrefix(prefix: string, x: string)
    requires forall i :: 0 <= i < |prefix| ==> !IsDigit(prefix[i])
    ensures Clear(prefix + x) == Clear(x)
  {
    DigitsAppend(prefix, x);
    DigitsEmpty(prefix);
    assert [] + Digits(x) == Digits(x);
  }

  /** Typing digit d at the end of the field, after a digit-free prefix and the laid-out number, makes `clear` read 10 n + d. */
  lemma ClearPrefixedTyped(prefix: string, n: nat, c: char)
    requires forall i :: 0 <= i < |prefix| ==> !IsDigit(prefix[i])
    requires IsDigit(c)
    ensures Clear(prefix + Layout(n) + [c]) == 10 * n + DigitValue(c)
  {
    assert prefix + Layout(n) + [c] == prefix + (Layout(n) + [c]);
    ClearIgnoresPrefix(prefix, Layout(n) + [c]);
    ClearLayoutTyped(n, c);
  }

  /** Erasing the last character of the field, after a digit-free prefix and the laid-out number, makes `clear` read n / 10. */
  lemma ClearPrefixedErased(prefix: string, n: nat)
    requires forall i :: 0 <= i < |prefix| ==> !IsDigit(prefix[i])
    ensures var t := prefix + Layout(n); Clear(t[..|t| - 1]) == n / 10
  {
    ClearPrefixDropLast(prefix, Layout(n));
    ClearLayoutErased(n);
  }

  /** Dropping the last character after a digit-free prefix reads the same as dropping it without the prefix. */
  lemma ClearPrefixDropLast(prefix: string, x: string)
    requires forall i :: 0 <= i < |prefix| ==> !IsDigit(prefix[i])
    requires |x| >= 1
    ensures var t := prefix + x; Clear(t[..|t| - 1]) == Clear(x[..|x| - 1])
  {
    var t := prefix + x;
    assert t[..|t| - 1] == prefix + x[..|x| - 1];
    ClearIgnoresPrefix(prefix, x[..|x| - 1]);
  }

  /** Dropping the last character of units, '.' and cents reads as the value of units and cents, divided by 10. */
  lemma ClearDropLast(u: string, c: string)
    requires AllDigits(u) && AllDigits(c) && |c| == 2
    ensures var r := u + "." + c; Clear(r[..|r| - 1]) == Value(u + c) / 10
  {
    DigitsDropLast(u, c);
    var d := u + c;
    var p := d[..|d| - 1];
    assert AllDigits(d) by {
      assert forall i :: |u| <= i < |d| ==> d[i] == c[i - |u|];
    }
    assert Value(d) == Value(p) * 10 + DigitValue(d[|d| - 1]);
    DivMod10(Value(d), Value(p), DigitValue(d[|d| - 1]));
  }

  /** The laid-out number is the units, a '.' and the cents of the padded digits, all of them digits. */
  lemma LayoutParts(n: nat)
    ensures |Padded(n)| >= 3
    ensures var u, c := Units(Padded(n)), Cents(Padded(n));
      Layout(n) == u + "." + c && Padded(n) == u + c && AllDigits(u) && AllDigits(c)
  {
    var digits := Padded(n);
    var u, c := Units(digits), Cents(digits);
    assert Layout(n) == u + "." + c;
    assert AllDigits(u) by {
      forall i | 0 <= i < |u|
        ensures IsDigit(u[i])
      {
        assert u[i] == digits[i];
      }
    }
  }

  /** Dropping the last character of units, '.' and cents leaves the digits of units and the first cent. */
  lemma DigitsDropLast(u: string, c: string)
    requires AllDigits(u) && AllDigits(c) && |c| == 2
    ensures var r := u + "." + c; var d := u + c;
      Digits(r[..|r| - 1]) == d[..|d| - 1]
  {
    var r := u + "." + c;
    assert r[..|r| - 1] == (u + ".") + [c[0]];
    var d := u + c;
    assert d[..|d| - 1] == u + [c[0]];
    DigitsAppend(u + ".", [c[0]]);
    DigitsAppend(u, ".");
    DigitsOfChar('.');
    DigitsOfChar(c[0]);
    DigitsOfDigits(u);
  }

  lemma DivMod10(n: nat, q: nat, m: nat)
    requires n == q * 10 + m && m < 10
    ensures n / 10 == q && n % 10 == m
  {
  }

  // ---------------------------------------------------------------------------
  // Properties of currency

  /**
   * Digit-only text is numeric (`Number("")` is 0), so the rounding branch
   * always runs; the rounded rendering reads the same as the text, and the
   * output is the layout of `clear(text)`.
   */
  lemma CurrencyOfDigits(text: string, format: string -> string)
    requires AllDigits(text)
    ensures Currency(text, Some(ToDecimal(Value(text))), format) == format(Layout(Clear(text)))
  {
    DigitsOfDigits(text);
    ClearToDecimal(Value(text), 0);
  }

  /**
   * The field shows the formatted amount, such as "$1,234.56": the padded
   * digits of n with the currency sign and separators between them. `Number`
   * of any text holding a '$' is NaN, so masking that text again takes the
   * NaN branch and gives back the layout of n: no cents are lost.
   */
  lemma CurrencyRemask(shown: string, n: nat, format: string -> string)
    requires '$' in shown
    requires Digits(shown) == Padded(n)
    ensures Currency(shown, None, format) == format(Layout(n))
  {
    PaddedShape(n);
  }

  /** The currency sign, or any other digit-free prefix, before the layout keeps its digits intact. */
  lemma RemaskPrefixed(prefix: string, n: nat)
    requires forall i :: 0 <= i < |prefix| ==> !IsDigit(prefix[i])
    ensures Digits(prefix + Layout(n)) == Padded(n)
  {
    DigitsAppend(prefix, Layout(n));
    DigitsEmpty(prefix);
    DigitsOfLayout(n);
  }

  /** So masking "$" followed by the layout, which `Number` reads as NaN, gives the layout back. */
  lemma CurrencyOfPrefixed(prefix: string, n: nat, format: string -> string)
    requires '$' in prefix
    requires forall i :: 0 <= i < |prefix| ==> !IsDigit(prefix[i])
    ensures Currency(prefix + Layout(n), None, format) == format(Layout(n))
  {
    var shown := prefix + Layout(n);
    var i :| 0 <= i < |prefix| && prefix[i] == '$';
    assert shown[i] == '$';
    RemaskPrefixed(prefix, n);
    CurrencyRemask(shown, n, format);
  }

  /**
   * A bare laid-out number is a numeral, so `Number` is not NaN and
   * `Math.round` drops its cents before the layout: the amount n becomes
   * round(n / 100) cents.
   */
  lemma CurrencyOfLayoutRounds(n: nat, format: string -> string)
    ensures Currency(Layout(n), Some(ToDecimal((n + 50) / 100)), format) == format(Layout((n + 50) / 100))
  {
    ClearToDecimal((n + 50) / 100, 0);
  }

  /** For example "1.23" is masked as if it were one cent. */
  lemma CurrencyOfLayoutExample(format: string -> string)
    ensures Layout(123) == "1.23"
    ensures Currency("1.23", Some("1"), format) == format("0.01")
  {
    assert ToDecimal(1) == "1";
    assert ToDecimal(12) == "12";
    assert ToDecimal(123) == "123";
    assert Padded(123) == "123";
    assert Padded(1) == "001";
    assert Digits("1") == "1";
    assert Value("1") == 1;
    assert Units("001") == "0" && Cents("001") == "01";
    assert Layout(1) == "0.01";
    assert Units("123") == "1" && Cents("123") == "23";
  }
}
