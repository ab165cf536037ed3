/**
  The two pieces of Python's string machinery the task record relies on:
  `str.strip()` with no argument, and `str(n)` for an integer `n` (used by the
  f-string in `Todo.__str__`), together with a reader that inverts `str(n)`.
  Strings are sequences of Unicode code points, as Python's `str` is, so `|s|`
  agrees with Python's `len(s)`.
 */
module PyText {
  import opened Wrappers

  /** Python's `str.isspace()` for a single code point: the characters that
      `str.strip()` with no argument removes (Unicode bidirectional class WS,
      B or S, or general category Zs). */
  predicate IsWhitespace(c: char): (b: bool)
    ensures c == ' ' || c == '\t' || c == '\n' || c == '\r' || c == '\U{B}' || c == '\U{C}' ==> b
    ensures IsDigit(c) || ('a' <= c <= 'z') || ('A' <= c <= 'Z') ==> !b
  {
    var n := c as int;
    (0x09 <= n <= 0x0D) || (0x1C <= n <= 0x20) || n == 0x85 || n == 0xA0 || n == 0x1680 ||
    (0x2000 <= n <= 0x200A) || n == 0x2028 || n == 0x2029 || n == 0x202F || n == 0x205F || n == 0x3000
  }

  predicate AllWhitespace(s: string)
  {
    forall i :: 0 <= i < |s| ==> IsWhitespace(s[i])
  }

  /** Neither end of `s` is whitespace: `s` is a fixed point of `strip()`. */
  predicate IsStripped(s: string)
  {
    s == [] || (!IsWhitespace(s[0]) && !IsWhitespace(s[|s| - 1]))
  }

  /** The first position at or after `i` that does not hold whitespace, or `|s|`. */
  function SkipLeading(s: string, i: nat): (k: nat)
    requires i <= |s|
    ensures i <= k <= |s|
    ensures forall j :: i <= j < k ==> IsWhitespace(s[j])
    ensures k == |s| || !IsWhitespace(s[k])
    decreases |s| - i
  {
    if i < |s| && IsWhitespace(s[i]) then SkipLeading(s, i + 1) else i
  }

  /** The end of `s[lo..hi]` once its trailing whitespace is dropped. */
  function SkipTrailing(s: string, lo: nat, hi: nat): (k: nat)
    requires lo <= hi <= |s|
    ensures lo <= k <= hi
    ensures forall j :: k <= j < hi ==> IsWhitespace(s[j])
    ensures k == lo || !IsWhitespace(s[k - 1])
    decreases hi - lo
  {
    if lo < hi && IsWhitespace(s[hi - 1]) then SkipTrailing(s, lo, hi - 1) else hi
  }

  /** Python's `s.strip()`: whitespace removed from both ends. It is empty
      exactly when `s` is empty or whitespace only. */
  function Strip(s: string): (r: string)
    ensures IsStripped(r)
    ensures |r| <= |s|
    ensures r == [] <==> AllWhitespace(s)
  {
    var lo := SkipLeading(s, 0);
    var hi := SkipTrailing(s, lo, |s|);
    assert lo == hi ==> AllWhitespace(s) by {
      if lo == hi {
        forall j | 0 <= j < |s|
          ensures IsWhitespace(s[j])
        {
        }
      }
    }
    s[lo..hi]
  }

  /** `strip()` keeps a contiguous slice of its input and drops only whitespace around it. */
  lemma StripIsSlice(s: string)
    ensures exists lo :: 0 <= lo <= |s| - |Strip(s)| && Strip(s) == s[lo..lo + |Strip(s)|] &&
                         AllWhitespace(s[..lo]) && AllWhitespace(s[lo + |Strip(s)|..])
  {
    var lo := SkipLeading(s, 0);
    var hi := SkipTrailing(s, lo, |s|);
    assert Strip(s) == s[lo..hi];
    assert AllWhitespace(s[..lo]);
    assert AllWhitespace(s[hi..]);
  }

  /** Stripping text that is already stripped changes nothing. */
  lemma StripStripped(s: string)
    requires IsStripped(s)
    ensures Strip(s) == s
  {
  }

  lemma {:induction false} SkipLeadingPadded(s: string, i: nat, n: nat)
    requires i <= n < |s| && !IsWhitespace(s[n])
    requires forall j :: i <= j < n ==> IsWhitespace(s[j])
    ensures SkipLeading(s, i) == n
    decreases n - i
  {
    if i < n {
      SkipLeadingPadded(s, i + 1, n);
    }
  }

  lemma {:induction false} SkipTrailingPadded(s: string, lo: nat, n: nat, hi: nat)
    requires lo < n <= hi <= |s| && !IsWhitespace(s[n - 1])
    requires forall j :: n <= j < hi ==> IsWhitespace(s[j])
    ensures SkipTrailing(s, lo, hi) == n
    decreases hi - n
  {
    if n < hi {
      SkipTrailingPadded(s, lo, n, hi - 1);
    }
  }

  /** `strip()` removes exactly the whitespace around a stripped text. */
  lemma StripSurrounded(before: string, s: string, after: string)
    requires AllWhitespace(before) && AllWhitespace(after) && s != [] && IsStripped(s)
    ensures Strip(before + s + after) == s
  {
    var x := before + s + after;
    var lo := |before|;
    var hi := |before| + |s|;
    assert x[lo] == s[0] && x[hi - 1] == s[|s| - 1];
    SkipLeadingPadded(x, 0, lo);
    SkipTrailingPadded(x, lo, hi, |x|);
    assert x[lo..hi] == s;
  }

  /** `strip()` is idempotent. */
  lemma StripIdempotent(s: string)
    ensures Strip(Strip(s)) == Strip(s)
  {
    StripStripped(Strip(s));
  }

  predicate IsDigit(c: char)
  {
    '0' <= c <= '9'
  }

  predicate AllDigits(s: string)
  {
    forall i :: 0 <= i < |s| ==> IsDigit(s[i])
  }

  function DigitChar(d: nat): (c: char)
    requires d < 10
    ensures IsDigit(c) && c as int - '0' as int == d
  {
    (d + '0' as int) as char
  }

  function DigitValue(c: char): (d: nat)
    requires IsDigit(c)
    ensures d < 10
  {
    c as int - '0' as int
  }

  /** The decimal digits of `n`, most significant first, without leading zeros. */
  function NatToString(n: nat): (r: string)
    ensures r != [] && AllDigits(r)
    ensures |r| > 1 ==> r[0] != '0'
    decreases n
  {
    if n < 10 then [DigitChar(n)] else NatToString(n / 10) + [DigitChar(n % 10)]
  }

  /** Python's `str(n)` for an integer: a minus sign for negatives, then the digits. */
  function IntToString(n: int): (r: string)
    ensures r != [] && (r[0] == '-' || IsDigit(r[0]))
    ensures AllDigits(r[1..])
  {
    if n < 0 then "-" + NatToString(-n) else NatToString(n)
  }

  /** The value of a string of decimal digits (the empty string reads as 0). */
  function ParseNat(s: string): (n: nat)
    requires AllDigits(s)
  {
    if s == [] then 0 else ParseNat(s[..|s| - 1]) * 10 + DigitValue(s[|s| - 1])
  }

  /** Reads an optional minus sign followed by at least one decimal digit; anything else is `None`. */
  function ParseInt(s: string): (r: Option<int>)
    ensures r.Some? ==> s != [] && (s[0] == '-' || IsDigit(s[0])) && AllDigits(s[1..])
  {
    if |s| > 1 && s[0] == '-' && AllDigits(s[1..]) then
      var magnitude: int := ParseNat(s[1..]);
      Some(-magnitude)
    else if s != [] && AllDigits(s) then Some(ParseNat(s))
    else None
  }

  lemma {:induction false} ParseNatToString(n: nat)
    ensures ParseNat(NatToString(n)) == n
    decreases n
  {
    if n >= 10 {
      var r := NatToString(n);
      assert r[..|r| - 1] == NatToString(n / 10);
      ParseNatToString(n / 10);
    }
  }

  /** Reading back the decimal text of any integer gives that integer. */
  lemma ParseIntToString(n: int)
    ensures ParseInt(IntToString(n)) == Some(n)
  {
    if n < 0 {
      ParseNatToString(-n);
      assert IntToString(n)[1..] == NatToString(-n);
    } else {
      ParseNatToString(n);
    }
  }

  /** The index of the first occurrence of `c` in `s`, if any. */
  function IndexOf(s: string, c: char): (r: Option<nat>)
    ensures r.Some? ==> r.value < |s| && s[r.value] == c
    ensures r.Some? ==> forall j :: 0 <= j < r.value ==> s[j] != c
    ensures r.None? ==> forall j :: 0 <= j < |s| ==> s[j] != c
  {
    if s == [] then None
    else if s[0] == c then Some(0)
    else match IndexOf(s[1..], c)
      case None => None
      case Some(k) => Some(k + 1)
  }

  predicate EndsWith(s: string, suffix: string)
  {
    |suffix| <= |s| && s[|s| - |suffix|..] == suffix
  }
}
