/** Character classes, decimal rendering and the centring rule of Python's
    format mini-language, as used by the report. */
module Text {
  import opened Results

  /** Whitespace as Python's `str.isspace` (and hence `\s` in a `str` pattern)
      understands it. */
  predicate IsSpace(c: char) {
    var n := c as int;
    || 0x09 <= n <= 0x0D
    || 0x1C <= n <= 0x1F
    || n == 0x20 || n == 0x85 || n == 0xA0 || n == 0x1680
    || 0x2000 <= n <= 0x200A
    || n == 0x2028 || n == 0x2029 || n == 0x202F || n == 0x205F || n == 0x3000
  }

  predicate IsDigit(c: char) {
    '0' <= c <= '9'
  }

  predicate AllDigits(s: string) {
    forall i :: 0 <= i < |s| ==> IsDigit(s[i])
  }

  function DigitChar(d: int): (c: char)
    requires 0 <= d <= 9
    ensures IsDigit(c) && c as int - '0' as int == d
  {
    ('0' as int + d) as char
  }

  function DigitValue(c: char): (d: nat)
    requires IsDigit(c)
    ensures d <= 9 && DigitChar(d) == c
  {
    c as int - '0' as int
  }

  /** The number a string of decimal digits denotes (most significant first). */
  function DigitsValue(s: string): nat
    requires AllDigits(s)
    decreases |s|
  {
    if |s| == 0 then 0 else DigitsValue(s[..|s| - 1]) * 10 + DigitValue(s[|s| - 1])
  }

  function Pow10(k: nat): (p: nat)
    ensures p >= 1
  {
    if k == 0 then 1 else 10 * Pow10(k - 1)
  }

  /** `%0<width>d` for a number that fits: exactly `width` digits, zero-filled
      on the left. */
  function FixedDigits(n: nat, width: nat): (r: string)
    requires n < Pow10(width)
    ensures |r| == width && AllDigits(r)
    ensures DigitsValue(r) == n
    decreases width
  {
    if width == 0 then ""
    else
      var front := FixedDigits(n / 10, width - 1);
      var r := front + [DigitChar(n % 10)];
      assert r[..|r| - 1] == front;
      r
  }

  /** `str(n)` for a natural number: shortest decimal form, no leading zero. */
  function NatToString(n: nat): (r: string)
    ensures |r| >= 1 && AllDigits(r)
    ensures DigitsValue(r) == n
    ensures r[0] == '0' ==> r == "0"
    decreases n
  {
    if n < 10 then
      var r := [DigitChar(n)];
      assert r[..0] == [];
      r
    else
      var front := NatToString(n / 10);
      var r := front + [DigitChar(n % 10)];
      assert r[..|r| - 1] == front;
      r
  }

  /** Reads back an optionally signed decimal integer; the inverse of `IntToString`. */
  function ParseInt(s: string): Option<int> {
    if |s| >= 2 && s[0] == '-' && AllDigits(s[1..]) then
      var v := -(DigitsValue(s[1..]) as int);
      Some(v)
    else if |s| >= 1 && AllDigits(s) then Some(DigitsValue(s))
    else None
  }

  /** `str(n)` for any integer, as `format(n, ...)` renders it before padding. */
  function IntToString(n: int): (r: string)
    ensures |r| >= 1
    ensures forall i :: 0 <= i < |r| ==> r[i] != ' '
    ensures ParseInt(r) == Some(n)
  {
    if n < 0 then
      var r := "-" + NatToString(-n);
      assert r[1..] == NatToString(-n);
      r
    else NatToString(n)
  }

  /** The text is the shortest decimal form: a minus sign exactly for
      negative numbers, then digits with no leading zero (other than `0`
      itself). With the read-back above, this pins the text down. */
  lemma IntToStringShortest(n: int)
    ensures var r := IntToString(n);
      && (r[0] == '-') == (n < 0)
      && var d := if n < 0 then r[1..] else r;
         |d| >= 1 && AllDigits(d) && (d[0] == '0' ==> d == "0")
  {
    if n < 0 {
      assert IntToString(n)[1..] == NatToString(-n);
    }
  }

  function Spaces(n: nat): (r: string)
    ensures |r| == n
    ensures forall i :: 0 <= i < n ==> r[i] == ' '
  {
    seq(n, _ => ' ')
  }

  /** `format(s, '^<width>')` with the default fill: never truncates; pads
      with spaces to `width`, putting the odd space, if any, on the right. */
  function Center(s: string, width: nat): (r: string)
    ensures |r| == if |s| < width then width else |s|
  {
    if |s| >= width then s
    else
      var pad := width - |s|;
      Spaces(pad / 2) + s + Spaces(pad - pad / 2)
  }

  /** The centred text sits whole at offset (padding div 2) with spaces on
      both sides. */
  lemma CenterLayout(s: string, width: nat)
    ensures var r := Center(s, width);
      var left := (|r| - |s|) / 2;
      && r[left..left + |s|] == s
      && (forall i :: 0 <= i < left ==> r[i] == ' ')
      && (forall i :: left + |s| <= i < |r| ==> r[i] == ' ')
  {
    var r := Center(s, width);
    if |s| < width {
      var pad := width - |s|;
      assert r == Spaces(pad / 2) + s + Spaces(pad - pad / 2);
      assert r[pad / 2..pad / 2 + |s|] == s;
    }
  }

  /** Drops leading spaces. */
  function TrimStart(s: string): (r: string)
    ensures |r| <= |s| && s == Spaces(|s| - |r|) + r
    ensures |r| == 0 || r[0] != ' '
    decreases |s|
  {
    if |s| > 0 && s[0] == ' ' then TrimStart(s[1..]) else s
  }

  /** Drops trailing spaces. */
  function TrimEnd(s: string): (r: string)
    ensures |r| <= |s| && s == r + Spaces(|s| - |r|)
    ensures |r| == 0 || r[|r| - 1] != ' '
    decreases |s|
  {
    if |s| > 0 && s[|s| - 1] == ' ' then TrimEnd(s[..|s| - 1]) else s
  }

  /** `str.strip(' ')`. */
  function Strip(s: string): string {
    TrimEnd(TrimStart(s))
  }

  lemma {:induction false} TrimStartSpaces(k: nat, s: string)
    requires |s| == 0 || s[0] != ' '
    ensures TrimStart(Spaces(k) + s) == s
    decreases k
  {
    if k > 0 {
      assert (Spaces(k) + s)[1..] == Spaces(k - 1) + s;
      TrimStartSpaces(k - 1, s);
    } else {
      assert Spaces(k) + s == s;
    }
  }

  lemma {:induction false} TrimEndSpaces(s: string, k: nat)
    requires |s| == 0 || s[|s| - 1] != ' '
    ensures TrimEnd(s + Spaces(k)) == s
    decreases k
  {
    if k > 0 {
      assert (s + Spaces(k))[..|s| + k - 1] == s + Spaces(k - 1);
      TrimEndSpaces(s, k - 1);
    } else {
      assert s + Spaces(k) == s;
    }
  }

  /** Centring is undone by stripping, for text without edge spaces: the
      padding is spaces only and the text itself is kept whole. */
  lemma CenterStrip(s: string, width: nat)
    requires |s| > 0 && s[0] != ' ' && s[|s| - 1] != ' '
    ensures Strip(Center(s, width)) == s
  {
    var r := Center(s, width);
    var left := (|r| - |s|) / 2;
    var right := |r| - |s| - left;
    assert r == Spaces(left) + (s + Spaces(right));
    TrimStartSpaces(left, s + Spaces(right));
    TrimEndSpaces(s, right);
  }

  /** A number below `10^k` takes at most `k` digits. */
  lemma {:induction false} NatToStringLength(n: nat, k: nat)
    requires 1 <= k && n < Pow10(k)
    ensures |NatToString(n)| <= k
    decreases n
  {
    if n >= 10 {
      NatToStringLength(n / 10, k - 1);
    }
  }

  /** The integers that fit a 4-character column unpadded: -999 to 9999. */
  lemma IntToStringFits4(n: int)
    requires -999 <= n <= 9999
    ensures |IntToString(n)| <= 4
  {
    if n < 0 {
      NatToStringLength(-n, 3);
    } else {
      NatToStringLength(n, 4);
    }
  }
}
