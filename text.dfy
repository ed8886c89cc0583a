/** String operations the pipeline relies on, with the meaning of each stated
    as in Python's `str` methods and MariaDB's string functions. */
module Text {
  import opened Wrappers

  predicate StartsWith(s: string, p: string) {
    |p| <= |s| && s[..|p|] == p
  }

  predicate EndsWith(s: string, p: string) {
    |p| <= |s| && s[|s| - |p|..] == p
  }

  /** Python's `sub in s`. */
  predicate Contains(s: string, sub: string)
    decreases |s|
  {
    StartsWith(s, sub) || (|s| > 0 && Contains(s[1..], sub))
  }

  /** The position of the first occurrence of `sep` in `s`. */
  function FirstIndexOf(s: string, sep: string): (r: Option<nat>)
    requires |sep| > 0
    ensures r.Some? ==> r.value + |sep| <= |s| && s[r.value..r.value + |sep|] == sep
    ensures r.Some? ==> forall j :: 0 <= j < r.value ==> !StartsWith(s[j..], sep)
    ensures r.None? ==> forall j :: 0 <= j <= |s| ==> !StartsWith(s[j..], sep)
    decreases |s|
  {
    if StartsWith(s, sep) then Some(0)
    else if |s| == 0 then None
    else
      match FirstIndexOf(s[1..], sep)
      case None =>
        NoMatchShift(s, sep, |s|);
        None
      case Some(i) =>
        NoMatchShift(s, sep, i);
        assert s[i + 1..i + 1 + |sep|] == s[1..][i..i + |sep|];
        Some(i + 1)
  }

  /** No match at the first `n` positions of `s[1..]` nor at the start of
      `s` is no match at the first `n + 1` positions of `s`. */
  lemma NoMatchShift(s: string, sep: string, n: nat)
    requires 0 < |s| && n <= |s| && !StartsWith(s, sep)
    requires forall j :: 0 <= j < n ==> !StartsWith(s[1..][j..], sep)
    ensures forall j :: 0 <= j < n + 1 ==> !StartsWith(s[j..], sep)
  {
    forall j | 0 <= j < n + 1 ensures !StartsWith(s[j..], sep) {
      if j == 0 {
        assert s[0..] == s;
      } else {
        assert s[j..] == s[1..][j - 1..];
      }
    }
  }

  /** Text none of whose characters starts `sep` does not hold `sep`. */
  lemma {:induction false} FirstIndexOfMissingStart(s: string, sep: string)
    requires |sep| > 0 && forall j :: 0 <= j < |s| ==> s[j] != sep[0]
    ensures FirstIndexOf(s, sep).None?
    decreases |s|
  {
    if |s| > 0 {
      assert !StartsWith(s, sep) by {
        if |sep| <= |s| {
          assert s[..|sep|][0] == s[0];
        }
      }
      FirstIndexOfMissingStart(s[1..], sep);
    }
  }

  /** Python's `s.split(sep, 1)`: the text before the first `sep` and, when
      there is one, the text after it. */
  function SplitOnce(s: string, sep: string): (r: (string, Option<string>))
    requires |sep| > 0
    ensures r.1.Some? ==> s == r.0 + sep + r.1.value
    ensures r.1.None? ==> r.0 == s
    ensures forall j :: 0 <= j < |r.0| ==> !StartsWith(s[j..], sep)
  {
    match FirstIndexOf(s, sep)
    case None => (s, None)
    case Some(i) =>
      assert s == s[..i] + s[i..i + |sep|] + s[i + |sep|..];
      (s[..i], Some(s[i + |sep|..]))
  }

  /** `s.split(sep)[0]` in Python and `SUBSTRING_INDEX(s, sep, 1)` in MariaDB. */
  function FirstField(s: string, sep: string): string
    requires |sep| > 0
  {
    SplitOnce(s, sep).0
  }

  /** Python's `s.replace(pat, rep)`: every non-overlapping occurrence, left to right. */
  function ReplaceAll(s: string, pat: string, rep: string): string
    requires |pat| > 0
    decreases |s|
  {
    if StartsWith(s, pat) then rep + ReplaceAll(s[|pat|..], pat, rep)
    else if |s| == 0 then []
    else [s[0]] + ReplaceAll(s[1..], pat, rep)
  }

  /** A text none of whose characters can begin `pat` passes through a
      replacement unchanged, and the replacement carries on after it. */
  lemma {:induction false} ReplaceAllSkipsPrefix(p: string, t: string, pat: string, rep: string)
    requires |pat| > 0
    requires forall i :: 0 <= i < |p| ==> p[i] != pat[0]
    ensures ReplaceAll(p + t, pat, rep) == p + ReplaceAll(t, pat, rep)
    decreases |p|
  {
    if |p| > 0 {
      var q := p + t;
      assert q[0] == p[0] != pat[0];
      assert !StartsWith(q, pat) by {
        if |pat| <= |q| {
          assert q[..|pat|][0] != pat[0];
        }
      }
      assert ReplaceAll(q, pat, rep) == [q[0]] + ReplaceAll(q[1..], pat, rep);
      assert q[1..] == p[1..] + t;
      ReplaceAllSkipsPrefix(p[1..], t, pat, rep);
      assert [p[0]] + p[1..] == p;
    } else {
      assert p + t == t;
    }
  }

  /** A text that starts with `pat` starts with `rep` once replaced. */
  lemma ReplaceAllLeading(s: string, pat: string, rep: string)
    requires |pat| > 0 && StartsWith(s, pat)
    ensures StartsWith(ReplaceAll(s, pat, rep), rep)
    ensures ReplaceAll(s, pat, rep) == rep + ReplaceAll(s[|pat|..], pat, rep)
  {
  }

  /** The text before the last `c`, or all of `s` without one: Python's
      `s.rsplit(c, 1)[0]`. */
  function BeforeLast(s: string, c: char): (r: string)
    ensures StartsWith(s, r)
    ensures r == s <==> (forall i :: 0 <= i < |s| ==> s[i] != c)
    ensures r != s ==> s[|r|] == c && forall i :: |r| < i < |s| ==> s[i] != c
    decreases |s|
  {
    if |s| == 0 then s
    else if s[|s| - 1] == c then s[..|s| - 1]
    else
      var r' := BeforeLast(s[..|s| - 1], c);
      if r' == s[..|s| - 1] then s
      else
        assert s[..|s| - 1][..|r'|] == s[..|r'|];
        r'
  }

  // ---------------------------------------------------------------------------
  // Decimal numerals

  function DigitChar(d: nat): char
    requires d < 10
  {
    "0123456789"[d]
  }

  predicate IsDigit(c: char) {
    '0' <= c <= '9'
  }

  /** Python's `str(n)` for a natural number. */
  function NatToDecimal(n: nat): (r: string)
    ensures |r| > 0 && forall i :: 0 <= i < |r| ==> IsDigit(r[i])
  {
    if n < 10 then [DigitChar(n)] else NatToDecimal(n / 10) + [DigitChar(n % 10)]
  }

  /** The value of a string of decimal digits. */
  function DigitsValue(s: string): nat
    requires forall i :: 0 <= i < |s| ==> IsDigit(s[i])
  {
    if |s| == 0 then 0
    else DigitsValue(s[..|s| - 1]) * 10 + DigitValue(s[|s| - 1])
  }

  function DigitValue(c: char): (d: nat)
    requires IsDigit(c)
    ensures d < 10
  {
    (c as int) - ('0' as int)
  }

  /** Python's `str.isspace()`: the characters `int()` strips from both ends
      of its argument. */
  predicate IsSpace(c: char) {
    var k := c as int;
    k == 0x20 || 0x09 <= k <= 0x0D || 0x1C <= k <= 0x1F || k == 0x85 || k == 0xA0 || k == 0x1680 ||
    0x2000 <= k <= 0x200A || k == 0x2028 || k == 0x2029 || k == 0x202F || k == 0x205F || k == 0x3000
  }

  /** The number of leading whitespace characters of `s`. */
  function StripStart(s: string): (n: nat)
    ensures n <= |s|
    ensures forall k :: 0 <= k < n ==> IsSpace(s[k])
    ensures n < |s| ==> !IsSpace(s[n])
  {
    if |s| > 0 && IsSpace(s[0]) then
      var n := 1 + StripStart(s[1..]);
      assert forall k :: 1 <= k < n ==> s[k] == s[1..][k - 1];
      n
    else 0
  }

  /** The length of `s` without its trailing whitespace. */
  function StripEnd(s: string): (m: nat)
    ensures m <= |s|
    ensures forall k :: m <= k < |s| ==> IsSpace(s[k])
    ensures m > 0 ==> !IsSpace(s[m - 1])
  {
    if |s| > 0 && IsSpace(s[|s| - 1]) then StripEnd(s[..|s| - 1]) else |s|
  }

  /** Python's `s.strip()`. */
  function Strip(s: string): string {
    var t := s[StripStart(s)..];
    t[..StripEnd(t)]
  }

  /** Text between whitespace strips to itself when it neither starts nor
      ends with whitespace. */
  lemma StripPadded(pre: string, d: string, post: string)
    requires forall k :: 0 <= k < |pre| ==> IsSpace(pre[k])
    requires forall k :: 0 <= k < |post| ==> IsSpace(post[k])
    requires |d| > 0 && !IsSpace(d[0]) && !IsSpace(d[|d| - 1])
    ensures Strip(pre + d + post) == d
  {
    var s := pre + d + post;
    assert s[|pre|] == d[0];
    var n := StripStart(s);
    assert n == |pre|;
    var t := s[n..];
    assert t == d + post;
    var m := StripEnd(t);
    assert t[|d| - 1] == d[|d| - 1];
    assert m == |d|;
  }

  /** The digits of a decimal literal as `int()` reads it: ASCII digits, with
      single underscores between two digits. */
  predicate IsUnderscoredDigits(s: string) {
    |s| > 0 && IsDigit(s[0]) && IsDigit(s[|s| - 1]) &&
    (forall i :: 0 <= i < |s| ==> IsDigit(s[i]) || s[i] == '_') &&
    (forall i :: 0 <= i < |s| - 1 && s[i] == '_' ==> IsDigit(s[i + 1]))
  }

  /** `s` with its underscores removed. */
  function WithoutUnderscores(s: string): (r: string)
    ensures (forall i :: 0 <= i < |s| ==> IsDigit(s[i]) || s[i] == '_') ==>
            forall i :: 0 <= i < |r| ==> IsDigit(r[i])
    ensures (forall i :: 0 <= i < |s| ==> s[i] != '_') ==> r == s
  {
    if |s| == 0 then []
    else if s[0] == '_' then WithoutUnderscores(s[1..])
    else [s[0]] + WithoutUnderscores(s[1..])
  }

  /** Python's `int(s)` on a `str`: surrounding whitespace is stripped, then
      an optional sign and the digits, with single underscores allowed
      between digits; any other text raises, here `None`. */
  function ParseInt(s: string): Option<int> {
    var t := Strip(s);
    var signed := |t| > 0 && (t[0] == '+' || t[0] == '-');
    var body := if signed then t[1..] else t;
    if !IsUnderscoredDigits(body) then None
    else
      var v := DigitsValue(WithoutUnderscores(body));
      Some(if signed && t[0] == '-' then 0 - v else v)
  }

  lemma {:induction false} DigitsValueOfDecimal(n: nat)
    ensures DigitsValue(NatToDecimal(n)) == n
  {
    if n >= 10 {
      var r := NatToDecimal(n);
      assert r[..|r| - 1] == NatToDecimal(n / 10);
      DigitsValueOfDecimal(n / 10);
    }
  }

  /** Digits with single underscores between them, inside whitespace, read
      as the number the digits spell. */
  lemma ParseIntOfDigits(pre: string, d: string, post: string)
    requires forall k :: 0 <= k < |pre| ==> IsSpace(pre[k])
    requires forall k :: 0 <= k < |post| ==> IsSpace(post[k])
    requires IsUnderscoredDigits(d)
    ensures forall i :: 0 <= i < |WithoutUnderscores(d)| ==> IsDigit(WithoutUnderscores(d)[i])
    ensures ParseInt(pre + d + post) == Some(DigitsValue(WithoutUnderscores(d)) as int)
  {
    StripPadded(pre, d, post);
  }

  /** `int(str(n)) == n`, also with whitespace around the numeral: printing a
      number and reading it back is the identity. */
  lemma ParseIntPadded(pre: string, n: nat, post: string)
    requires forall k :: 0 <= k < |pre| ==> IsSpace(pre[k])
    requires forall k :: 0 <= k < |post| ==> IsSpace(post[k])
    ensures ParseInt(pre + NatToDecimal(n) + post) == Some(n)
  {
    var d := NatToDecimal(n);
    assert forall i :: 0 <= i < |d| ==> IsDigit(d[i]);
    ParseIntOfDigits(pre, d, post);
    DigitsValueOfDecimal(n);
  }

  lemma ParseIntOfDecimal(n: nat)
    ensures ParseInt(NatToDecimal(n)) == Some(n)
  {
    var d := NatToDecimal(n);
    assert "" + d + "" == d;
    ParseIntPadded("", n, "");
  }

  /** `int()` raises on text holding any character that is not whitespace, a
      sign, an underscore or an ASCII digit (the model's `int()` takes none of
      the non-ASCII decimal digits). */
  lemma ParseIntRejects(s: string, i: nat)
    requires i < |s| && !IsSpace(s[i]) && !IsDigit(s[i]) && s[i] != '_' && s[i] != '+' && s[i] != '-'
    ensures ParseInt(s) == None
  {
    var n := StripStart(s);
    var t := s[n..];
    var m := StripEnd(t);
    var r := t[..m];
    assert Strip(s) == r;
    assert n <= i;
    assert i - n < m;
    assert r[i - n] == s[i];
    var signed := |r| > 0 && (r[0] == '+' || r[0] == '-');
    var body := if signed then r[1..] else r;
    var j := if signed then i - n - 1 else i - n;
    assert 0 <= j < |body| && body[j] == s[i];
  }

  /** `int(" 7")` is 7: whitespace around the digits is stripped. */
  lemma ParseIntStripsSpace()
    ensures ParseInt(" 7") == Some(7)
  {
    ParseIntPadded(" ", 7, "");
    assert " " + NatToDecimal(7) + "" == " 7";
  }

  /** `int("1__0")` raises: underscores come one at a time. */
  lemma ParseIntDoubleUnderscore()
    ensures ParseInt("1__0") == None
  {
    var s := "1__0";
    assert StripStart(s) == 0;
    assert StripEnd(s) == 4;
    assert Strip(s) == s;
    assert !(s[1] == '_' && IsDigit(s[2]));
  }

  /** Decimal numerals of different numbers differ. */
  lemma NatToDecimalInjective(m: nat, n: nat)
    requires NatToDecimal(m) == NatToDecimal(n)
    ensures m == n
  {
    DigitsValueOfDecimal(m);
    DigitsValueOfDecimal(n);
  }

  // ---------------------------------------------------------------------------
  // Encodings

  function Utf8CharLength(c: char): nat {
    if (c as int) < 0x80 then 1
    else if (c as int) < 0x800 then 2
    else if (c as int) < 0x10000 then 3
    else 4
  }

  /** `len(s.encode())`: the number of bytes of the UTF-8 encoding of `s`. */
  function Utf8Length(s: string): nat {
    if |s| == 0 then 0 else Utf8Length(s[..|s| - 1]) + Utf8CharLength(s[|s| - 1])
  }

  predicate IsAscii(s: string) {
    forall i :: 0 <= i < |s| ==> (s[i] as int) < 0x80
  }

  /** Every character takes one to four bytes, and ASCII text one byte a character. */
  lemma {:induction false} Utf8LengthBounds(s: string)
    ensures |s| <= Utf8Length(s) <= 4 * |s|
    ensures IsAscii(s) ==> Utf8Length(s) == |s|
  {
    if |s| > 0 {
      Utf8LengthBounds(s[..|s| - 1]);
    }
  }

  lemma {:induction false} Utf8LengthAppend(s: string, t: string)
    ensures Utf8Length(s + t) == Utf8Length(s) + Utf8Length(t)
    decreases |t|
  {
    if |t| > 0 {
      assert (s + t)[..|s + t| - 1] == s + t[..|t| - 1];
      Utf8LengthAppend(s, t[..|t| - 1]);
    } else {
      assert s + t == s;
    }
  }

  function AsciiLowerChar(c: char): char {
    if 'A' <= c <= 'Z' then (c as int + 32) as char else c
  }

  /** Python's `s.lower()` restricted to ASCII letters. */
  function AsciiLower(s: string): (r: string)
    ensures |r| == |s|
    ensures forall i :: 0 <= i < |s| ==> r[i] == AsciiLowerChar(s[i])
  {
    if |s| == 0 then [] else [AsciiLowerChar(s[0])] + AsciiLower(s[1..])
  }
}
