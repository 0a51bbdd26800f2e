/**
 * The string operations the application relies on, with JavaScript's meaning:
 * the `\s` character class and `trim`, `includes`, `toLowerCase` (on ASCII
 * letters), decimal rendering of numbers, `padStart(2, '0')`, and the global
 * replacement of SGR escape sequences (`/\x1b\[[0-9;]*m/g`, ECMA-48 section
 * 8.3.117).
 */
module Text {

  /** White space as ECMAScript defines it for `\s` and `String.prototype.trim`. */
  predicate IsSpace(c: char) {
    || c == '\t' || c == '\n' || c == '\U{B}' || c == '\U{C}' || c == '\r' || c == ' '
    || c == '\U{A0}' || c == '\U{1680}' || ('\U{2000}' <= c <= '\U{200A}')
    || c == '\U{2028}' || c == '\U{2029}' || c == '\U{202F}' || c == '\U{205F}'
    || c == '\U{3000}' || c == '\U{FEFF}'
  }

  predicate IsDigit(c: char) {
    '0' <= c <= '9'
  }

  // ---------------------------------------------------------------------------
  // Substring search: `s.includes(sub)`

  /** `sub` occurs in `s` starting at index `i`. */
  predicate OccursAt(s: string, sub: string, i: int) {
    0 <= i && i + |sub| <= |s| && s[i..i + |sub|] == sub
  }

  /** JavaScript's `s.includes(sub)`. */
  predicate Contains(s: string, sub: string) {
    exists i :: 0 <= i <= |s| - |sub| && OccursAt(s, sub, i)
  }

  lemma ContainsEmpty(s: string)
    ensures Contains(s, "")
  {
    assert OccursAt(s, "", 0);
  }

  /** Whatever contains `a + sub + b` contains `sub`. */
  lemma ContainsInfix(s: string, a: string, sub: string, b: string)
    requires Contains(s, a + sub + b)
    ensures Contains(s, sub)
  {
    var big := a + sub + b;
    var i :| 0 <= i <= |s| - |big| && OccursAt(s, big, i);
    assert s[i..i + |big|] == big;
    assert forall k :: 0 <= k < |sub| ==> s[i + |a| + k] == s[i..i + |big|][|a| + k] == big[|a| + k] == sub[k];
    assert OccursAt(s, sub, i + |a|);
  }

  lemma ContainsPrefixOf(s: string, t: string)
    ensures Contains(s + t, s)
  {
    assert (s + t)[0..|s|] == s;
    assert OccursAt(s + t, s, 0);
  }

  // ---------------------------------------------------------------------------
  // Counting: `(s.match(/c/g) || []).length`

  /** How many times `c` occurs in `s`. */
  function Count(s: string, c: char): (n: nat)
    ensures n == multiset(s)[c]
  {
    if |s| == 0 then 0
    else
      assert s == [s[0]] + s[1..];
      (if s[0] == c then 1 else 0) + Count(s[1..], c)
  }

  // ---------------------------------------------------------------------------
  // `trim`

  /** JavaScript's `trimStart`: drops the leading white space. */
  function TrimStart(s: string): (r: string)
    ensures |r| <= |s| && r == s[|s| - |r|..]
    ensures forall k :: 0 <= k < |s| - |r| ==> IsSpace(s[k])
    ensures |r| == 0 || !IsSpace(r[0])
  {
    if |s| > 0 && IsSpace(s[0]) then TrimStart(s[1..]) else s
  }

  /** JavaScript's `trimEnd`: drops the trailing white space. */
  function TrimEnd(s: string): (r: string)
    ensures |r| <= |s| && r == s[..|r|]
    ensures forall k :: |r| <= k < |s| ==> IsSpace(s[k])
    ensures |r| == 0 || !IsSpace(r[|r| - 1])
  {
    if |s| > 0 && IsSpace(s[|s| - 1]) then TrimEnd(s[..|s| - 1]) else s
  }

  /** JavaScript's `trim`: a contiguous slice of `s` that neither starts nor ends with white space, and only white space was cut. */
  function Trim(s: string): (r: string)
    ensures |r| <= |s|
    ensures exists i :: (0 <= i <= |s| - |r| && OccursAt(s, r, i)
                         && (forall k :: 0 <= k < i ==> IsSpace(s[k]))
                         && (forall k :: i + |r| <= k < |s| ==> IsSpace(s[k])))
    ensures |r| == 0 || (!IsSpace(r[0]) && !IsSpace(r[|r| - 1]))
  {
    var a := TrimStart(s);
    var r := TrimEnd(a);
    TrimWitness(s, a, r);
    r
  }

  /** A prefix `r` of a suffix `a` of `s`, with only white space around it, sits in `s` at `|s| - |a|`. */
  lemma TrimWitness(s: string, a: string, r: string)
    requires |a| <= |s| && a == s[|s| - |a|..]
    requires forall k :: 0 <= k < |s| - |a| ==> IsSpace(s[k])
    requires |r| <= |a| && r == a[..|r|]
    requires forall k :: |r| <= k < |a| ==> IsSpace(a[k])
    ensures OccursAt(s, r, |s| - |a|)
    ensures forall k :: 0 <= k < |s| - |a| ==> IsSpace(s[k])
    ensures forall k :: |s| - |a| + |r| <= k < |s| ==> IsSpace(s[k])
  {
    var i := |s| - |a|;
    assert s[i..i + |r|] == a[..|r|];
    assert forall k :: i + |r| <= k < |s| ==> s[k] == a[k - i];
  }

  /** Text without white space at either end is its own trim. */
  lemma TrimOfTrimmed(s: string)
    requires |s| == 0 || (!IsSpace(s[0]) && !IsSpace(s[|s| - 1]))
    ensures Trim(s) == s
  {
  }

  // ---------------------------------------------------------------------------
  // `toLowerCase`, on ASCII letters

  function LowerChar(c: char): (d: char)
    ensures 'A' <= c <= 'Z' ==> d as int == c as int + 32
    ensures !('A' <= c <= 'Z') ==> d == c
  {
    if 'A' <= c <= 'Z' then (c as int + 32) as char else c
  }

  function ToLower(s: string): (r: string)
    ensures |r| == |s|
    ensures forall k :: 0 <= k < |s| ==> r[k] == LowerChar(s[k])
  {
    seq(|s|, k requires 0 <= k < |s| => LowerChar(s[k]))
  }

  // ---------------------------------------------------------------------------
  // Decimal rendering: `n.toString()` and `padStart(2, '0')`

  function DigitChar(d: nat): (c: char)
    requires d < 10
    ensures IsDigit(c) && DigitValue(c) == d
  {
    ('0' as int + d) as char
  }

  function DigitValue(c: char): (d: nat)
    requires IsDigit(c)
    ensures d < 10
  {
    c as int - '0' as int
  }

  /** The value of a string of decimal digits. */
  function DigitsValue(s: string): nat
    requires forall k :: 0 <= k < |s| ==> IsDigit(s[k])
  {
    if |s| == 0 then 0
    else DigitsValue(s[..|s| - 1]) * 10 + DigitValue(s[|s| - 1])
  }

  /** `n.toString()` for a non-negative integer: decimal digits without leading zeros, reading back as `n`. */
  function NatToString(n: nat): (r: string)
    ensures 1 <= |r|
    ensures forall k :: 0 <= k < |r| ==> IsDigit(r[k])
    ensures DigitsValue(r) == n
    ensures r[0] == '0' ==> n == 0
    ensures n < 10 <==> |r| == 1
  {
    if n < 10 then [DigitChar(n)]
    else
      var prefix := NatToString(n / 10);
      var r := prefix + [DigitChar(n % 10)];
      assert r[..|r| - 1] == prefix;
      r
  }

  /** `i.toString()` for any integer. */
  function IntToString(i: int): (r: string)
    ensures i >= 0 ==> r == NatToString(i)
    ensures i < 0 ==> r == "-" + NatToString(-i)
  {
    if i < 0 then "-" + NatToString(-i) else NatToString(i)
  }

  /** `s.padStart(2, '0')`. */
  function PadStart2(s: string): (r: string)
    ensures |s| >= 2 ==> r == s
    ensures |s| < 2 ==> |r| == 2 && r[2 - |s|..] == s
    ensures forall k :: 0 <= k < |r| - |s| ==> r[k] == '0'
  {
    if |s| >= 2 then s else seq(2 - |s|, _ => '0') + s
  }

  // ---------------------------------------------------------------------------
  // `s.replace(/\x1b\[[0-9;]*m/g, '')`

  const Esc: char := '\U{1B}'

  /** The characters the SGR pattern allows between `ESC [` and `m`. */
  predicate IsSgrParam(c: char) {
    IsDigit(c) || c == ';'
  }

  /** The SGR control sequence `ESC [ params m`. */
  function Sgr(params: string): string {
    [Esc, '['] + params + "m"
  }

  /** Length of the longest prefix of `s` made of SGR parameter characters. */
  function ParamRun(s: string): (n: nat)
    ensures n <= |s|
    ensures forall k :: 0 <= k < n ==> IsSgrParam(s[k])
    ensures n < |s| ==> !IsSgrParam(s[n])
  {
    if |s| > 0 && IsSgrParam(s[0]) then 1 + ParamRun(s[1..]) else 0
  }

  /** Length of the SGR sequence `s` starts with, or 0 when it starts with none. */
  function SgrPrefix(s: string): (n: nat)
    ensures n <= |s|
    ensures n > 0 ==> (n >= 3 && s[0] == Esc && s[1] == '[' && s[n - 1] == 'm'
                       && forall k :: 2 <= k < n - 1 ==> IsSgrParam(s[k]))
  {
    if |s| >= 2 && s[0] == Esc && s[1] == '[' then
      var k := ParamRun(s[2..]);
      if 2 + k < |s| && s[2 + k] == 'm' then 3 + k else 0
    else 0
  }

  /** Deletes every SGR sequence, scanning left to right without rescanning what the deletions join. */
  function StripSgr(s: string): (r: string)
    ensures |r| <= |s|
  {
    if |s| == 0 then ""
    else
      var n := SgrPrefix(s);
      if n > 0 then
        assert s == s[..n] + s[n..];
        StripSgr(s[n..])
      else
        assert s == [s[0]] + s[1..];
        [s[0]] + StripSgr(s[1..])
  }

  /** Stripping only ever deletes characters: nothing is added or changed. */
  lemma {:induction false} StripSgrOnlyDeletes(s: string)
    ensures multiset(StripSgr(s)) <= multiset(s)
    decreases |s|
  {
    if |s| > 0 {
      var n := SgrPrefix(s);
      var rest := if n > 0 then s[n..] else s[1..];
      var kept := if n > 0 then [] else [s[0]];
      var dropped := if n > 0 then s[..n] else [];
      assert s == dropped + kept + rest;
      assert StripSgr(s) == kept + StripSgr(rest);
      StripSgrOnlyDeletes(rest);
      assert multiset(s) == multiset(dropped) + multiset(kept) + multiset(rest);
    }
  }

  lemma SgrPrefixOfSgr(params: string, t: string)
    requires forall k :: 0 <= k < |params| ==> IsSgrParam(params[k])
    ensures SgrPrefix(Sgr(params) + t) == |params| + 3
  {
    var s := Sgr(params) + t;
    assert s[2..] == params + ("m" + t);
    ParamRunOver(params, "m" + t);
  }

  lemma {:induction false} ParamRunOver(params: string, t: string)
    requires forall k :: 0 <= k < |params| ==> IsSgrParam(params[k])
    requires |t| > 0 && !IsSgrParam(t[0])
    ensures ParamRun(params + t) == |params|
  {
    if |params| > 0 {
      assert (params + t)[1..] == params[1..] + t;
      ParamRunOver(params[1..], t);
    }
  }

  /** A leading SGR sequence is deleted whole. */
  lemma StripLeadingSgr(params: string, t: string)
    requires forall k :: 0 <= k < |params| ==> IsSgrParam(params[k])
    ensures StripSgr(Sgr(params) + t) == StripSgr(t)
  {
    SgrPrefixOfSgr(params, t);
    assert (Sgr(params) + t)[|params| + 3..] == t;
  }

  /** Text without escape characters passes through unchanged. */
  lemma {:induction false} StripPlainPrefix(a: string, t: string)
    requires Esc !in a
    ensures StripSgr(a + t) == a + StripSgr(t)
  {
    if |a| > 0 {
      assert a[0] in a;
      assert (a + t)[0] == a[0] != Esc;
      assert SgrPrefix(a + t) == 0;
      assert (a + t)[1..] == a[1..] + t;
      assert StripSgr(a + t) == [a[0]] + StripSgr((a + t)[1..]);
      StripPlainPrefix(a[1..], t);
      assert a == [a[0]] + a[1..];
      assert [a[0]] + (a[1..] + StripSgr(t)) == a + StripSgr(t);
    } else {
      assert a + t == t;
    }
  }

  /** Plain text wrapped in two SGR sequences keeps only the plain text. */
  lemma StripColoured(p1: string, a: string, p2: string, b: string, t: string)
    requires forall k :: 0 <= k < |p1| ==> IsSgrParam(p1[k])
    requires forall k :: 0 <= k < |p2| ==> IsSgrParam(p2[k])
    requires Esc !in a && Esc !in b
    ensures StripSgr(Sgr(p1) + a + Sgr(p2) + b + t) == a + b + StripSgr(t)
  {
    assert Sgr(p1) + a + Sgr(p2) + b + t == Sgr(p1) + (a + (Sgr(p2) + (b + t)));
    StripLeadingSgr(p1, a + (Sgr(p2) + (b + t)));
    StripPlainPrefix(a, Sgr(p2) + (b + t));
    StripLeadingSgr(p2, b + t);
    StripPlainPrefix(b, t);
    assert a + (b + StripSgr(t)) == a + b + StripSgr(t);
  }

  lemma StripNoEsc(a: string)
    requires Esc !in a
    ensures StripSgr(a) == a
  {
    StripPlainPrefix(a, "");
    assert a + "" == a;
  }
}
