/**
 * The few pieces of JavaScript string behaviour the forms rely on:
 * `String.prototype.trim`, `Number.parseInt(s)` (no radix argument) and the
 * decimal rendering of a non-negative integer (`${n}` in a template literal).
 */
module Text {
  import opened Common

  /** ECMAScript WhiteSpace and LineTerminator code points: what `trim` and `parseInt` skip. */
  predicate IsJsSpace(c: char) {
    c == '\t' || c == '\n' || c == '\U{000B}' || c == '\U{000C}' || c == '\r' || c == ' '
    || c == '\U{00A0}' || c == '\U{1680}' || ('\U{2000}' <= c <= '\U{200A}')
    || c == '\U{2028}' || c == '\U{2029}' || c == '\U{202F}' || c == '\U{205F}'
    || c == '\U{3000}' || c == '\U{FEFF}'
  }

  /** `s.trimStart()`: the suffix of `s` left after its leading white space. */
  function TrimStart(s: string): (r: string)
    ensures |r| <= |s|
    ensures r != [] ==> !IsJsSpace(r[0])
  {
    if |s| > 0 && IsJsSpace(s[0]) then TrimStart(s[1..]) else s
  }

  /** `trimStart` removes white space only: what it leaves is a suffix, and what it drops is all white space. */
  lemma {:induction false} TrimStartDropsSpace(s: string)
    ensures TrimStart(s) == s[|s| - |TrimStart(s)|..]
    ensures forall k :: 0 <= k < |s| - |TrimStart(s)| ==> IsJsSpace(s[k])
  {
    if |s| > 0 && IsJsSpace(s[0]) {
      TrimStartDropsSpace(s[1..]);
    }
  }

  /** `s.trimEnd()`: the prefix of `s` left after its trailing white space. */
  function TrimEnd(s: string): (r: string)
    ensures |r| <= |s|
    ensures r != [] ==> !IsJsSpace(r[|r| - 1])
  {
    if |s| > 0 && IsJsSpace(s[|s| - 1]) then TrimEnd(s[..|s| - 1]) else s
  }

  /** `trimEnd` removes white space only: what it leaves is a prefix, and what it drops is all white space. */
  lemma {:induction false} TrimEndDropsSpace(s: string)
    ensures TrimEnd(s) == s[..|TrimEnd(s)|]
    ensures forall k :: |TrimEnd(s)| <= k < |s| ==> IsJsSpace(s[k])
  {
    if |s| > 0 && IsJsSpace(s[|s| - 1]) {
      TrimEndDropsSpace(s[..|s| - 1]);
    }
  }

  /** `s.trim()` */
  function Trim(s: string): (r: string)
    ensures r != [] ==> !IsJsSpace(r[0]) && !IsJsSpace(r[|r| - 1])
  {
    TrimEndDropsSpace(TrimStart(s));
    TrimEnd(TrimStart(s))
  }

  /**
   * `trim` cuts white space off both ends and nothing else: the result is the
   * slice `s[a..b]`, every character before `a` and from `b` on is white
   * space, and the slice neither starts nor ends with white space.
   */
  lemma TrimIsInnerSlice(s: string)
    ensures var a := |s| - |TrimStart(s)|;
      var b := a + |Trim(s)|;
      0 <= a <= b <= |s| && Trim(s) == s[a..b]
      && (forall k :: 0 <= k < a ==> IsJsSpace(s[k]))
      && (forall k :: b <= k < |s| ==> IsJsSpace(s[k]))
  {
    var t := TrimStart(s);
    var a := |s| - |t|;
    TrimStartDropsSpace(s);
    TrimEndDropsSpace(t);
    SliceOfSuffix(s, a, |Trim(s)|);
  }

  /** The spaces after the trimmed slice of `TrimStart(s)` are spaces of `s`. */
  lemma SliceOfSuffix(s: string, a: nat, m: nat)
    requires a <= |s| && m <= |s| - a
    requires forall j :: m <= j < |s| - a ==> IsJsSpace(s[a..][j])
    ensures s[a..][..m] == s[a..a + m]
    ensures forall k :: a + m <= k < |s| ==> IsJsSpace(s[k])
  {
    forall k | a + m <= k < |s| ensures IsJsSpace(s[k]) {
      assert s[k] == s[a..][k - a];
    }
  }

  /** A string trims to "" exactly when it is white space throughout. */
  lemma TrimEmptyIffBlank(s: string)
    ensures Trim(s) == "" <==> forall k :: 0 <= k < |s| ==> IsJsSpace(s[k])
  {
    var t := TrimStart(s);
    TrimStartDropsSpace(s);
    TrimEndDropsSpace(t);
    if Trim(s) == "" {
      forall k | 0 <= k < |s| ensures IsJsSpace(s[k]) {
        if k >= |s| - |t| {
          assert s[k] == t[k - (|s| - |t|)];
        }
      }
    } else {
      var r := Trim(s);
      assert r[0] == t[0];
      assert t[0] == s[|s| - |t|];
    }
  }

  /** Trimming is idempotent. */
  lemma TrimIdempotent(s: string)
    ensures Trim(Trim(s)) == Trim(s)
  {
    var r := Trim(s);
    if r != [] {
      assert TrimStart(r) == r;
      assert TrimEnd(r) == r;
    }
  }

  function DigitChar(d: nat): (c: char)
    requires d < 10
    ensures '0' <= c <= '9'
  {
    ['0', '1', '2', '3', '4', '5', '6', '7', '8', '9'][d]
  }

  /** Decimal rendering of `n`, without leading zeros. */
  function NatToString(n: nat): (r: string)
    ensures |r| >= 1
    ensures forall k :: 0 <= k < |r| ==> '0' <= r[k] <= '9'
    ensures r[0] == '0' ==> n == 0 && |r| == 1
  {
    if n < 10 then [DigitChar(n)] else NatToString(n / 10) + [DigitChar(n % 10)]
  }

  /** `${n}` for an integer `n`. */
  function IntToString(n: int): (r: string)
    ensures n >= 0 ==> r == NatToString(n)
    ensures n < 0 ==> r == "-" + NatToString(-n)
  {
    if n >= 0 then NatToString(n) else "-" + NatToString(-n)
  }

  /** The value of `c` as a digit in base 36, or 36 when `c` is no digit at all. */
  function DigitValue(c: char): (v: nat)
    ensures v <= 36
  {
    if '0' <= c <= '9' then (c as int) - ('0' as int)
    else if 'a' <= c <= 'z' then (c as int) - ('a' as int) + 10
    else if 'A' <= c <= 'Z' then (c as int) - ('A' as int) + 10
    else 36
  }

  /** The end of the run of base-`radix` digits of `s` that starts at index `i`. */
  function DigitsEnd(s: string, i: nat, radix: nat): (j: nat)
    requires i <= |s|
    ensures i <= j <= |s|
    ensures j < |s| ==> DigitValue(s[j]) >= radix
    decreases |s| - i
  {
    if i < |s| && DigitValue(s[i]) < radix then DigitsEnd(s, i + 1, radix) else i
  }

  /** Every character of the run is a digit in base `radix`. */
  lemma {:induction false} DigitsEndAreDigits(s: string, i: nat, radix: nat)
    requires i <= |s|
    ensures forall k :: i <= k < DigitsEnd(s, i, radix) ==> DigitValue(s[k]) < radix
    decreases |s| - i
  {
    if i < |s| && DigitValue(s[i]) < radix {
      DigitsEndAreDigits(s, i + 1, radix);
    }
  }

  /** The value of the digits `s[i..j]` in base `radix`, most significant digit first. */
  function DigitsValue(s: string, i: nat, j: nat, radix: nat): nat
    requires i <= j <= |s|
    decreases j - i
  {
    if j == i then 0
    else DigitsValue(s, i, j - 1, radix) * radix + (if DigitValue(s[j - 1]) < 36 then DigitValue(s[j - 1]) else 0)
  }

  /**
   * `Number.parseInt(s)` without a radix: skip leading white space, take an
   * optional sign, read base 16 after a `0x`/`0X` prefix and base 10
   * otherwise, and stop at the first character that is not a digit. `None`
   * stands for `NaN` (no digit at all). `-0` is the integer 0 here.
   */
  function ParseInt(s: string): (r: Option<int>)
  {
    var t := TrimStart(s);
    var negative := |t| > 0 && t[0] == '-';
    var p := if |t| > 0 && (t[0] == '-' || t[0] == '+') then 1 else 0;
    var hex := |t| >= p + 2 && t[p] == '0' && (t[p + 1] == 'x' || t[p + 1] == 'X');
    var start := if hex then p + 2 else p;
    var end := if hex then DigitsEnd(t, start, 16) else DigitsEnd(t, start, 10);
    if end == start then None
    else
      var v: int := if hex then DigitsValue(t, start, end, 16) else DigitsValue(t, start, end, 10);
      Some(if negative then -v else v)
  }

  /** Characters after the digits read do not change their value. */
  lemma {:induction false} DigitsValueOfPrefix(a: string, b: string, i: nat, j: nat, radix: nat)
    requires i <= j <= |a|
    ensures DigitsValue(a + b, i, j, radix) == DigitsValue(a, i, j, radix)
    decreases j - i
  {
    if j > i {
      DigitsValueOfPrefix(a, b, i, j - 1, radix);
      assert (a + b)[j - 1] == a[j - 1];
    }
  }

  lemma {:induction false} DigitsValueOfNatToString(n: nat)
    ensures DigitsValue(NatToString(n), 0, |NatToString(n)|, 10) == n
  {
    var r := NatToString(n);
    if n >= 10 {
      DigitsValueOfNatToString(n / 10);
      DigitsValueOfPrefix(NatToString(n / 10), [DigitChar(n % 10)], 0, |r| - 1, 10);
    }
  }

  lemma {:induction false} DigitsEndOfDecimal(s: string, i: nat)
    requires i <= |s|
    requires forall k :: 0 <= k < |s| ==> '0' <= s[k] <= '9'
    ensures DigitsEnd(s, i, 10) == |s|
    decreases |s| - i
  {
    if i < |s| {
      DigitsEndOfDecimal(s, i + 1);
    }
  }

  /** Reading back the decimal rendering of `n` gives `n`. */
  lemma ParseIntOfNatToString(n: nat)
    ensures ParseInt(NatToString(n)) == Some(n)
  {
    var r := NatToString(n);
    assert !IsJsSpace(r[0]);
    assert TrimStart(r) == r;
    assert !(r[0] == '-' || r[0] == '+');
    assert !(|r| >= 2 && r[0] == '0');
    DigitsEndOfDecimal(r, 0);
    DigitsValueOfNatToString(n);
  }

  /** Decimal rendering is injective: distinct numbers render differently. */
  lemma NatToStringInjective(a: nat, b: nat)
    requires NatToString(a) == NatToString(b)
    ensures a == b
  {
    ParseIntOfNatToString(a);
    ParseIntOfNatToString(b);
  }
}
