/**
 * Python's conversions between integers and decimal text: `str(n)` and
 * `int(s)` for a string `s` (base 10), and the script's `isint`.
 */
module PyInt {
  import opened PyStr

  predicate IsDigit(c: char) {
    '0' <= c <= '9'
  }

  function DigitChar(d: nat): (c: char)
    requires d < 10
    ensures IsDigit(c)
  {
    ('0' as int + d) as char
  }

  /** `str(n)` for a non-negative integer: its decimal digits, no leading zero. */
  function NatToStr(n: nat): (r: string)
    ensures |r| >= 1
    ensures forall k :: 0 <= k < |r| ==> IsDigit(r[k])
    ensures r[0] == '0' ==> n == 0 && r == "0"
  {
    if n < 10 then [DigitChar(n)] else NatToStr(n / 10) + [DigitChar(n % 10)]
  }

  /** `str(n)`. */
  function IntToStr(n: int): (r: string)
    ensures |r| >= 1 && (r[0] == '-' <==> n < 0)
    ensures n < 0 ==> |r| >= 2
    ensures forall k :: (if n < 0 then 1 else 0) <= k < |r| ==> IsDigit(r[k])
  {
    if n < 0 then "-" + NatToStr(-n) else NatToStr(n)
  }

  /**
   * The digit part `int()` accepts (PEP 515): digits, with single
   * underscores allowed between two digits.
   */
  predicate IsDigitString(s: string) {
    && |s| >= 1
    && IsDigit(s[0])
    && IsDigit(s[|s| - 1])
    && (forall k :: 0 <= k < |s| ==> IsDigit(s[k]) || s[k] == '_')
    && (forall k :: 0 <= k < |s| - 1 ==> s[k] == '_' ==> s[k + 1] != '_')
  }

  /** The number a digit string denotes, underscores skipped. */
  function DigitsValue(s: string): nat {
    if |s| == 0 then 0
    else
      var c := s[|s| - 1];
      if IsDigit(c) then DigitsValue(s[..|s| - 1]) * 10 + (c as int - '0' as int)
      else DigitsValue(s[..|s| - 1])
  }

  /**
   * The whitespace `int()` skips around the numeral: the six ASCII characters
   * C's `isspace` accepts (tab, line feed, vertical tab, form feed, carriage
   * return, space), and the non-ASCII whitespace of Latin-1 (NEL and
   * no-break space), which `int()` turns into spaces first. Unlike
   * `str.strip()`, the separators 0x1C-0x1F are not skipped.
   */
  predicate IsIntSpace(c: char) {
    var n := c as int;
    (0x09 <= n <= 0x0D) || n == 0x20 || n == 0x85 || n == 0xA0
  }

  /** Every character of `s` is such whitespace. */
  predicate AllIntSpace(s: string) {
    forall k :: 0 <= k < |s| ==> IsIntSpace(s[k])
  }

  /** `s` without its leading whitespace. */
  function TrimStart(s: string): (r: string)
    ensures |r| <= |s| && r == s[|s| - |r|..]
    ensures r == "" || !IsIntSpace(r[0])
    ensures forall k :: 0 <= k < |s| - |r| ==> IsIntSpace(s[k])
  {
    if |s| > 0 && IsIntSpace(s[0]) then TrimStart(s[1..]) else s
  }

  /** `s` without its trailing whitespace. */
  function TrimEnd(s: string): (r: string)
    ensures |r| <= |s| && r == s[..|r|]
    ensures r == "" || !IsIntSpace(r[|r| - 1])
    ensures forall k :: |r| <= k < |s| ==> IsIntSpace(s[k])
  {
    if |s| > 0 && IsIntSpace(s[|s| - 1]) then TrimEnd(s[..|s| - 1]) else s
  }

  /** `s` without whitespace at either end; whitespace alone trims to "". */
  function Trim(s: string): (r: string)
    ensures |r| <= |s|
    ensures r == "" || (!IsIntSpace(r[0]) && !IsIntSpace(r[|r| - 1]))
    ensures AllIntSpace(s) ==> r == ""
  {
    TrimEnd(TrimStart(s))
  }

  /** The text `int()` accepts once whitespace is trimmed: an optional sign, then digits. */
  function ParseNumeral(t: string): Option<int> {
    if |t| > 0 && (t[0] == '-' || t[0] == '+') then
      if IsDigitString(t[1..]) then
        var v: int := DigitsValue(t[1..]);
        Some(if t[0] == '-' then -v else v)
      else None
    else if IsDigitString(t) then Some(DigitsValue(t))
    else None
  }

  /**
   * `int(s)` for a string `s`: surrounding whitespace is ignored, an optional
   * sign may precede the digits, and anything else raises `ValueError`
   * (here `None`). A parsed text always has a digit after its optional sign.
   */
  function ParseInt(s: string): (r: Option<int>)
    ensures Trim(s) == "" ==> r == None
    ensures r.Some? ==> var t := Trim(s); IsDigit(t[0]) || (|t| > 1 && (t[0] == '-' || t[0] == '+') && IsDigit(t[1]))
  {
    ParseNumeral(Trim(s))
  }

  /** `isint(val)`: `int(val)` does not raise. */
  predicate IsInt(val: string) {
    ParseInt(val).Some?
  }

  lemma {:induction false} DigitsValueOfNatToStr(n: nat)
    ensures DigitsValue(NatToStr(n)) == n
  {
    var s := NatToStr(n);
    if n >= 10 {
      DigitsValueOfNatToStr(n / 10);
      assert s[..|s| - 1] == NatToStr(n / 10);
    }
  }

  /** The decimal text of a natural number is a digit string denoting it. */
  lemma NatTextParses(m: nat)
    ensures IsDigitString(NatToStr(m)) && DigitsValue(NatToStr(m)) == m
  {
    DigitsValueOfNatToStr(m);
  }

  /** `int(str(n)) == n`: reading back the decimal text of any integer gives it back. */
  lemma IntRoundTrip(n: int)
    ensures ParseInt(IntToStr(n)) == Some(n)
  {
    var s := IntToStr(n);
    var m: nat := if n < 0 then -n else n;
    var digits := NatToStr(m);
    NatTextParses(m);
    assert IsDigit(digits[0]) && IsDigit(digits[|digits| - 1]);
    assert s[|s| - 1] == digits[|digits| - 1];
    TrimUnpadded(s);
    if n < 0 {
      assert s[1..] == digits;
    }
  }

  /** `str` is injective on non-negative integers. */
  lemma NatToStrInjective(a: nat, b: nat)
    requires NatToStr(a) == NatToStr(b)
    ensures a == b
  {
    DigitsValueOfNatToStr(a);
    DigitsValueOfNatToStr(b);
  }

  /** A nonempty string with no whitespace at either end is its own trimmed text. */
  lemma TrimUnpadded(s: string)
    requires s != "" && !IsIntSpace(s[0]) && !IsIntSpace(s[|s| - 1])
    ensures Trim(s) == s
  {
    assert TrimStart(s) == s;
  }

  /** Leading whitespace is skipped up to the first other character. */
  lemma {:induction false} TrimStartPadded(pre: string, t: string)
    requires AllIntSpace(pre) && t != "" && !IsIntSpace(t[0])
    ensures TrimStart(pre + t) == t
    decreases |pre|
  {
    if pre == [] {
      assert pre + t == t;
    } else {
      assert (pre + t)[0] == pre[0];
      assert (pre + t)[1..] == pre[1..] + t;
      TrimStartPadded(pre[1..], t);
    }
  }

  /** Trailing whitespace is skipped back to the last other character. */
  lemma {:induction false} TrimEndPadded(t: string, post: string)
    requires AllIntSpace(post) && t != "" && !IsIntSpace(t[|t| - 1])
    ensures TrimEnd(t + post) == t
    decreases |post|
  {
    if post == [] {
      assert t + post == t;
    } else {
      var u := t + post;
      assert u[|u| - 1] == post[|post| - 1];
      assert u[..|u| - 1] == t + post[..|post| - 1];
      TrimEndPadded(t, post[..|post| - 1]);
    }
  }

  /** Whitespace around a text that neither starts nor ends with whitespace is trimmed off exactly. */
  lemma TrimPadded(pre: string, t: string, post: string)
    requires AllIntSpace(pre) && AllIntSpace(post)
    requires t != "" && !IsIntSpace(t[0]) && !IsIntSpace(t[|t| - 1])
    ensures Trim(pre + t + post) == t
  {
    assert pre + t + post == pre + (t + post);
    assert (t + post)[0] == t[0];
    TrimStartPadded(pre, t + post);
    TrimEndPadded(t, post);
  }

  /** `int()` reads back the decimal text of any integer, whatever whitespace surrounds it. */
  lemma PaddedRoundTrip(pre: string, n: int, post: string)
    requires AllIntSpace(pre) && AllIntSpace(post)
    ensures ParseInt(pre + IntToStr(n) + post) == Some(n)
  {
    var s := IntToStr(n);
    IntRoundTrip(n);
    assert IsDigit(s[|s| - 1]);
    TrimPadded(pre, s, post);
    TrimUnpadded(s);
  }

  /** The separator 0x1C is not whitespace to `int()`: "\x1c1" does not parse, although `str.strip()` would remove it. */
  lemma SeparatorIsNotIntSpace()
    ensures ParseInt([28 as char] + "1") == None
  {
    var s := [28 as char] + "1";
    assert !IsIntSpace(s[0]) && !IsIntSpace(s[1]);
    TrimUnpadded(s);
    assert !IsDigit(s[0]);
  }

  /** `int("")` raises, so the script's extra `val != ""` test never decides anything. */
  lemma EmptyIsNotInt()
    ensures !IsInt("")
  {
  }
}
