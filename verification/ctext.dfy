/** The pieces of the C library the wrapper leans on for text: reading a
    `char *` as a NUL-terminated string, `%d` formatting, and the bytes that
    `snprintf` stores into a bounded buffer. */
module CText {

  import opened Wrappers

  /** The position of the first NUL in `s`, or `|s|` when there is none. */
  function NulIndex(s: string): (i: nat)
    ensures i <= |s|
    ensures i < |s| ==> s[i] == '\0'
    ensures forall j :: 0 <= j < i ==> s[j] != '\0'
  {
    if |s| == 0 || s[0] == '\0' then 0 else 1 + NulIndex(s[1..])
  }

  /** The text a `char *` designates: every character before the first NUL. */
  function CString(s: string): (r: string)
    ensures |r| <= |s| && r == s[..|r|]
    ensures '\0' !in r
    ensures |r| < |s| ==> s[|r|] == '\0'
  {
    s[..NulIndex(s)]
  }

  /** A string without NUL reads back unchanged, and a NUL ends the read. */
  lemma CStringStopsAtNul(t: string, rest: string)
    requires '\0' !in t
    ensures CString(t) == t
    ensures CString(t + "\0" + rest) == t
  {
    var s := t + "\0" + rest;
    assert s[|t|] == '\0';
    assert s[..|t|] == t;
  }

  predicate IsDigit(c: char) {
    '0' <= c <= '9'
  }

  function DigitChar(d: nat): (c: char)
    requires d < 10
    ensures IsDigit(c)
  {
    ('0' as int + d) as char
  }

  function DigitValue(c: char): (d: nat)
    requires IsDigit(c)
    ensures d < 10
  {
    c as int - '0' as int
  }

  /** Base-10 digits of `n`, most significant first, without leading zeros. */
  function NatDigits(n: nat): (r: string)
    ensures |r| > 0
    ensures forall i :: 0 <= i < |r| ==> IsDigit(r[i])
    ensures |r| > 1 ==> r[0] != '0'
  {
    if n < 10 then [DigitChar(n)] else NatDigits(n / 10) + [DigitChar(n % 10)]
  }

  /** What `printf("%d", n)` prints. */
  function Decimal(n: int): (r: string)
    ensures |r| > 0
    ensures '\0' !in r && '\n' !in r
  {
    if n < 0 then "-" + NatDigits(-n) else NatDigits(n)
  }

  /** The number a string of decimal digits denotes. */
  function DigitsValue(s: string): nat
    requires forall i :: 0 <= i < |s| ==> IsDigit(s[i])
  {
    if |s| == 0 then 0 else DigitsValue(s[..|s| - 1]) * 10 + DigitValue(s[|s| - 1])
  }

  /** Reads back the output of `%d`: an optional minus sign, then digits. */
  function ParseDecimal(s: string): Option<int>
  {
    if |s| > 0 && s[0] == '-' then
      if |s| > 1 && forall i :: 1 <= i < |s| ==> IsDigit(s[i]) then Some(-(DigitsValue(s[1..]) as int)) else None
    else if |s| > 0 && forall i :: 0 <= i < |s| ==> IsDigit(s[i]) then Some(DigitsValue(s))
    else None
  }

  lemma {:induction false} NatDigitsValue(n: nat)
    ensures DigitsValue(NatDigits(n)) == n
    decreases n
  {
    var r := NatDigits(n);
    if n >= 10 {
      NatDigitsValue(n / 10);
      assert r[..|r| - 1] == NatDigits(n / 10);
    }
  }

  /** `%d` loses nothing: its output parses back to the number printed. */
  lemma DecimalRoundTrip(n: int)
    ensures ParseDecimal(Decimal(n)) == Some(n)
  {
    if n < 0 {
      NatDigitsValue(-n);
      assert Decimal(n)[1..] == NatDigits(-n);
    } else {
      NatDigitsValue(n);
    }
  }

  /** The bytes `snprintf(buf, n, fmt, …)` stores when the full formatted text
      is `text`: the first `n - 1` characters of it (or all, if shorter) and a
      terminating NUL; nothing at all when `n` is 0. */
  function Snprintf(n: nat, text: string): (stored: string)
    ensures |stored| <= n
    ensures n == 0 ==> stored == ""
    ensures n > 0 ==> |stored| == (if n - 1 < |text| then n - 1 else |text|) + 1
    ensures n > 0 ==> stored == text[..|stored| - 1] + "\0"
  {
    if n == 0 then ""
    else if n - 1 < |text| then text[..n - 1] + "\0"
    else text + "\0"
  }
}
