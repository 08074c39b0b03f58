/** String operations of the JavaScript runtime that the source relies on:
    `String.prototype.trim`, the `/\D/g` digit filter, `slice(0, 4)`,
    `toLowerCase`, the `length` property and `String(n)` for a count. */
module Text {
  import Seqs

  /** The code points `String.prototype.trim` removes: ECMAScript WhiteSpace
      (TAB, VT, FF, SP, NBSP, ZWNBSP and the Zs category) and LineTerminator
      (LF, CR, LS, PS). */
  const JsSpaces: set<char> := {
    '\U{0009}', '\U{000A}', '\U{000B}', '\U{000C}', '\U{000D}', '\U{0020}',
    '\U{00A0}', '\U{1680}', '\U{2000}', '\U{2001}', '\U{2002}', '\U{2003}',
    '\U{2004}', '\U{2005}', '\U{2006}', '\U{2007}', '\U{2008}', '\U{2009}',
    '\U{200A}', '\U{2028}', '\U{2029}', '\U{202F}', '\U{205F}', '\U{3000}',
    '\U{FEFF}'
  }

  predicate IsJsSpace(c: char) {
    c in JsSpaces
  }

  function TrimStart(s: string): (r: string)
    ensures |r| <= |s| && r == s[|s| - |r|..]
    ensures forall k :: 0 <= k < |s| - |r| ==> IsJsSpace(s[k])
    ensures r == [] || !IsJsSpace(r[0])
  {
    if s != [] && IsJsSpace(s[0]) then
      var t := TrimStart(s[1..]);
      DropLeadingSpace(s, t);
      t
    else s
  }

  /** Cutting one more white-space character from the front keeps `t` a
      suffix with only white space before it. */
  lemma DropLeadingSpace(s: string, t: string)
    requires s != [] && IsJsSpace(s[0])
    requires |t| <= |s| - 1 && t == s[1..][|s| - 1 - |t|..]
    requires forall k :: 0 <= k < |s| - 1 - |t| ==> IsJsSpace(s[1..][k])
    ensures t == s[|s| - |t|..]
    ensures forall k :: 0 <= k < |s| - |t| ==> IsJsSpace(s[k])
  {
    forall k | 1 <= k < |s| - |t|
      ensures IsJsSpace(s[k])
    {
      assert s[k] == s[1..][k - 1];
    }
  }

  function TrimEnd(s: string): (r: string)
    ensures |r| <= |s| && r == s[..|r|]
    ensures forall k :: |r| <= k < |s| ==> IsJsSpace(s[k])
    ensures r == [] || !IsJsSpace(r[|r| - 1])
  {
    if s != [] && IsJsSpace(s[|s| - 1]) then TrimEnd(s[..|s| - 1]) else s
  }

  /** `r` is the slice `s[i..j]`, with only white space before `i` and
      from `j` on. */
  predicate SpaceFramed(s: string, r: string, i: int, j: int) {
    && 0 <= i <= j <= |s| && r == s[i..j]
    && (forall k :: 0 <= k < i ==> IsJsSpace(s[k]))
    && (forall k :: j <= k < |s| ==> IsJsSpace(s[k]))
  }

  /** `String.prototype.trim`. */
  function Trim(s: string): (r: string)
    ensures |r| <= |s|
    ensures r == [] <==> forall k :: 0 <= k < |s| ==> IsJsSpace(s[k])
    ensures r != [] ==> !IsJsSpace(r[0]) && !IsJsSpace(r[|r| - 1])
  {
    CutBothEnds(s, TrimStart(s), TrimEnd(TrimStart(s)));
    TrimEnd(TrimStart(s))
  }

  /** The trim is the input with white space cut from both ends and
      nothing else: a slice with only white space outside it. */
  lemma TrimSlice(s: string)
    ensures exists i, j :: SpaceFramed(s, Trim(s), i, j)
  {
    var front := TrimStart(s);
    var r := TrimEnd(front);
    assert Trim(s) == r;
    CutBothEnds(s, front, r);
  }

  /** Cutting white space from the front and then from the back leaves a
      slice of the input with only white space on either side, empty
      exactly when the input is all white space. */
  lemma CutBothEnds(s: string, front: string, r: string)
    requires |front| <= |s| && front == s[|s| - |front|..]
    requires forall k :: 0 <= k < |s| - |front| ==> IsJsSpace(s[k])
    requires front == [] || !IsJsSpace(front[0])
    requires |r| <= |front| && r == front[..|r|]
    requires forall k :: |r| <= k < |front| ==> IsJsSpace(front[k])
    requires r == [] || !IsJsSpace(r[|r| - 1])
    ensures |r| <= |s|
    ensures r == [] <==> forall k :: 0 <= k < |s| ==> IsJsSpace(s[k])
    ensures r != [] ==> !IsJsSpace(r[0]) && !IsJsSpace(r[|r| - 1])
    ensures SpaceFramed(s, r, |s| - |front|, |s| - |front| + |r|)
  {
    var i := |s| - |front|;
    var j := i + |r|;
    forall k | j <= k < |s|
      ensures IsJsSpace(s[k])
    {
      assert s[k] == front[k - i];
    }
    assert r == s[i..j];
    if r != [] {
      assert r[0] == front[0];
    }
  }

  /** A trimmed string is its own trim. */
  lemma TrimIdempotent(s: string)
    ensures Trim(Trim(s)) == Trim(s)
  {
    var r := Trim(s);
    if r != [] {
      assert TrimStart(r) == r;
      assert TrimEnd(r) == r;
    }
  }

  /** `\d` in a regular expression without the `u` flag: ASCII digits only. */
  predicate IsDigit(c: char) {
    '0' <= c <= '9'
  }

  predicate AllDigits(s: string) {
    forall k :: 0 <= k < |s| ==> IsDigit(s[k])
  }

  /** `value.replace(/\D/g, '')`. */
  function KeepDigits(s: string): (r: string)
    ensures |r| <= |s|
    ensures AllDigits(r)
  {
    if s == [] then []
    else if IsDigit(s[0]) then [s[0]] + KeepDigits(s[1..])
    else KeepDigits(s[1..])
  }

  /** On one character the filter keeps a digit and drops anything else;
      with `KeepDigitsAppend` this fixes the filter on every string. */
  lemma KeepDigitsOne(c: char)
    ensures KeepDigits([c]) == if IsDigit(c) then [c] else []
  {
  }

  /** The digit filter is `filter` with the digit test: it keeps exactly
      the digits, in their order. */
  lemma {:induction false} KeepDigitsIsFilter(s: string)
    ensures KeepDigits(s) == Seqs.Filter(s, IsDigit)
  {
    if s != [] {
      KeepDigitsIsFilter(s[1..]);
    }
  }

  /** The digit filter works character by character, left to right: it
      distributes over concatenation, so the digits keep their order. */
  lemma {:induction false} KeepDigitsAppend(a: string, b: string)
    ensures KeepDigits(a + b) == KeepDigits(a) + KeepDigits(b)
  {
    if a == [] {
      assert a + b == b;
    } else {
      assert (a + b)[1..] == a[1..] + b;
      KeepDigitsAppend(a[1..], b);
    }
  }

  /** The filter removes exactly the non-digits: a string of digits passes
      unchanged, and nothing else does. */
  lemma {:induction false} KeepDigitsIdentity(s: string)
    ensures KeepDigits(s) == s <==> AllDigits(s)
  {
    if s != [] {
      KeepDigitsIdentity(s[1..]);
      if !IsDigit(s[0]) {
        assert |KeepDigits(s)| <= |s[1..]| < |s|;
      }
    }
  }

  /** `slice(0, n)`. */
  function Take(s: string, n: nat): (r: string)
    ensures |r| == if |s| <= n then |s| else n
    ensures r == s[..|r|]
  {
    if |s| <= n then s else s[..n]
  }

  /** The PIN input filter shared by the attendance page and the teacher
      assignment page: `value.replace(/\D/g, '').slice(0, 4)`. */
  function CleanPin(value: string): (r: string)
    ensures AllDigits(r)
    ensures |r| <= 4
    ensures |r| == if |KeepDigits(value)| <= 4 then |KeepDigits(value)| else 4
    ensures r == KeepDigits(value)[..|r|]
  {
    Take(KeepDigits(value), 4)
  }

  /** Cleaning a cleaned PIN changes nothing. */
  lemma CleanPinIdempotent(value: string)
    ensures CleanPin(CleanPin(value)) == CleanPin(value)
  {
    KeepDigitsIdentity(CleanPin(value));
  }

  /** `String.prototype.toLowerCase`, restricted to ASCII letters. */
  function LowerChar(c: char): (r: char)
    ensures 'A' <= c <= 'Z' ==> r as int == c as int + 32
    ensures !('A' <= c <= 'Z') ==> r == c
  {
    if 'A' <= c <= 'Z' then (c as int + 32) as char else c
  }

  function Lower(s: string): (r: string)
    ensures |r| == |s|
    ensures forall k :: 0 <= k < |s| ==> r[k] == LowerChar(s[k])
  {
    seq(|s|, k requires 0 <= k < |s| => LowerChar(s[k]))
  }

  /** Units a code point takes in UTF-16. */
  function Utf16Units(c: char): nat {
    if c as int >= 0x1_0000 then 2 else 1
  }

  /** The `length` property of a JavaScript string: UTF-16 code units. */
  function JsLength(s: string): (n: nat)
    ensures |s| <= n <= 2 * |s|
  {
    if s == [] then 0 else JsLength(s[..|s| - 1]) + Utf16Units(s[|s| - 1])
  }

  predicate IsBmp(s: string) {
    forall k :: 0 <= k < |s| ==> s[k] as int < 0x1_0000
  }

  /** For text in the Basic Multilingual Plane, which includes ASCII,
      `length` counts characters. */
  lemma {:induction false} JsLengthBmp(s: string)
    requires IsBmp(s)
    ensures JsLength(s) == |s|
  {
    if s != [] {
      JsLengthBmp(s[..|s| - 1]);
    }
  }

  lemma {:induction false} JsLengthAppend(a: string, b: string)
    ensures JsLength(a + b) == JsLength(a) + JsLength(b)
    decreases |b|
  {
    if b == [] {
      assert a + b == a;
    } else {
      assert (a + b)[..|a + b| - 1] == a + b[..|b| - 1];
      JsLengthAppend(a, b[..|b| - 1]);
    }
  }

  /** Strings whose characters take the same UTF-16 units have the same
      `length`. */
  lemma {:induction false} JsLengthPointwise(a: string, b: string)
    requires |a| == |b|
    requires forall k :: 0 <= k < |a| ==> Utf16Units(a[k]) == Utf16Units(b[k])
    ensures JsLength(a) == JsLength(b)
  {
    if a != [] {
      JsLengthPointwise(a[..|a| - 1], b[..|b| - 1]);
    }
  }

  function DigitValue(c: char): nat
    requires IsDigit(c)
  {
    c as int - '0' as int
  }

  function DigitChar(d: nat): (c: char)
    requires d < 10
    ensures IsDigit(c) && DigitValue(c) == d
  {
    ('0' as int + d) as char
  }

  /** The number a string of decimal digits denotes. */
  function DecimalValue(s: string): nat
    requires AllDigits(s)
  {
    if s == [] then 0 else DecimalValue(s[..|s| - 1]) * 10 + DigitValue(s[|s| - 1])
  }

  /** `String(n)` for a non-negative integer: its shortest decimal numeral. */
  function NatToString(n: nat): (r: string)
    ensures r != [] && AllDigits(r)
    ensures DecimalValue(r) == n
    ensures |r| == 1 || r[0] != '0'
  {
    if n < 10 then [DigitChar(n)]
    else
      var r := NatToString(n / 10) + [DigitChar(n % 10)];
      assert r[..|r| - 1] == NatToString(n / 10);
      r
  }

  /** Distinct numbers have distinct numerals. */
  lemma NatToStringInjective(m: nat, n: nat)
    requires NatToString(m) == NatToString(n)
    ensures m == n
  {
  }
}
