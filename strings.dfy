/**
 * The string handling the audit trail relies on: decimal numerals (Python's
 * `str(int)` and JavaScript's number-to-text conversion agree on integers),
 * substring search (`String.prototype.includes`) and the key-name formatting
 * `key.replace(/_/g, ' ').replace(/\b\w/g, l => l.toUpperCase())` used by both
 * history pages.
 */
module Strings {

  predicate IsDigit(c: char) {
    '0' <= c <= '9'
  }

  function DigitChar(d: nat): (c: char)
    requires d < 10
    ensures IsDigit(c) && c as int - '0' as int == d
  {
    ('0' as int + d) as char
  }

  function DigitValue(c: char): nat
    requires IsDigit(c)
  {
    c as int - '0' as int
  }

  predicate AllDigits(s: string) {
    forall i :: 0 <= i < |s| ==> IsDigit(s[i])
  }

  /** The decimal numeral of `n`, most significant digit first, no leading zero. */
  function NatToString(n: nat): string
    decreases n
  {
    if n < 10 then [DigitChar(n)] else NatToString(n / 10) + [DigitChar(n % 10)]
  }

  /** The decimal numeral of `n`, with a leading `-` when it is negative. */
  function IntToString(n: int): string {
    if n < 0 then "-" + NatToString(-n) else NatToString(n)
  }

  /** The number a string of decimal digits denotes. */
  function DigitsValue(s: string): nat
    requires AllDigits(s)
  {
    if s == [] then 0 else DigitsValue(s[..|s| - 1]) * 10 + DigitValue(s[|s| - 1])
  }

  /** A numeral is a non-empty run of digits that starts with `0` only when it is `0`. */
  lemma {:induction false} NatToStringShape(n: nat)
    ensures |NatToString(n)| >= 1 && AllDigits(NatToString(n))
    ensures NatToString(n)[0] == '0' <==> n == 0
    decreases n
  {
    if n >= 10 {
      NatToStringShape(n / 10);
      var s := NatToString(n / 10) + [DigitChar(n % 10)];
      assert s[0] == NatToString(n / 10)[0];
    }
  }

  /** Reading a numeral back gives the number it was written from. */
  lemma {:induction false} NatToStringValue(n: nat)
    ensures AllDigits(NatToString(n)) && DigitsValue(NatToString(n)) == n
    decreases n
  {
    NatToStringShape(n);
    if n >= 10 {
      var s := NatToString(n);
      NatToStringShape(n / 10);
      assert s[..|s| - 1] == NatToString(n / 10);
      NatToStringValue(n / 10);
    }
  }

  /** `s.includes(p)`: whether `p` occurs in `s` as a contiguous piece. */
  function Contains(s: string, p: string): bool
    decreases |s|
  {
    if |s| < |p| then false else s[..|p|] == p || Contains(s[1..], p)
  }

  /** Whether `p` occurs in `s` starting at position `i`. */
  predicate OccursAt(s: string, p: string, i: nat) {
    i + |p| <= |s| && s[i..i + |p|] == p
  }

  lemma {:induction false} ContainsSpec(s: string, p: string)
    ensures Contains(s, p) <==> exists i: nat :: OccursAt(s, p, i)
    decreases |s|
  {
    if |s| < |p| {
      assert forall i: nat :: !OccursAt(s, p, i);
    } else if s[..|p|] == p {
      assert OccursAt(s, p, 0);
    } else {
      ContainsSpec(s[1..], p);
      if Contains(s[1..], p) {
        var i: nat :| OccursAt(s[1..], p, i);
        assert s[i + 1..i + 1 + |p|] == s[1..][i..i + |p|];
        assert OccursAt(s, p, i + 1);
      }
      forall i: nat | OccursAt(s, p, i) ensures Contains(s[1..], p) {
        assert i != 0;
        assert s[1..][i - 1..i - 1 + |p|] == s[i..i + |p|];
        assert OccursAt(s[1..], p, i - 1);
      }
    }
  }

  /** `\w` of a JavaScript regular expression without the `u` flag. */
  predicate IsWordChar(c: char) {
    'a' <= c <= 'z' || 'A' <= c <= 'Z' || IsDigit(c) || c == '_'
  }

  /** `toUpperCase` on a single word character: a-z become A-Z, the rest stay. */
  function Upper(c: char): char {
    if 'a' <= c <= 'z' then (c as int - 32) as char else c
  }

  /** `replace(/_/g, ' ')`. */
  function Underscores(key: string): (r: string)
    ensures |r| == |key|
  {
    seq(|key|, i requires 0 <= i < |key| => if key[i] == '_' then ' ' else key[i])
  }

  /**
   * `replace(/\b\w/g, upper)`: a word character that follows a non-word
   * character (or starts the string) is upper-cased; `afterWord` says whether
   * the character before `s` was a word character.
   */
  function Capitalise(s: string, afterWord: bool): (r: string)
    ensures |r| == |s|
  {
    if s == [] then []
    else
      var c := if !afterWord && IsWordChar(s[0]) then Upper(s[0]) else s[0];
      [c] + Capitalise(s[1..], IsWordChar(s[0]))
  }

  /** The display name of a metric key (`formatMetricName`). */
  function FormatMetricName(key: string): (r: string) {
    Capitalise(Underscores(key), false)
  }

  /** Whether position `i` of `key` starts a word once underscores are spaces. */
  predicate StartsWord(key: string, i: nat)
    requires i < |key|
  {
    key[i] != '_' && IsWordChar(key[i]) && (i == 0 || !IsWordChar(key[i - 1]) || key[i - 1] == '_')
  }

  lemma {:induction false} CapitaliseAt(s: string, afterWord: bool, i: nat)
    requires i < |s|
    ensures Capitalise(s, afterWord)[i] ==
      if IsWordChar(s[i]) && !(if i == 0 then afterWord else IsWordChar(s[i - 1]))
      then Upper(s[i]) else s[i]
  {
    if i > 0 {
      CapitaliseAt(s[1..], IsWordChar(s[0]), i - 1);
      assert s[1..][i - 1] == s[i];
      if i > 1 { assert s[1..][i - 2] == s[i - 1]; }
    }
  }

  /**
   * Character by character, the display name replaces every underscore by a
   * space, upper-cases each character that starts a word and keeps the rest.
   */
  lemma FormatMetricNameAt(key: string, i: nat)
    requires i < |key|
    ensures |FormatMetricName(key)| == |key|
    ensures FormatMetricName(key)[i] ==
      if key[i] == '_' then ' ' else if StartsWord(key, i) then Upper(key[i]) else key[i]
  {
    var u := Underscores(key);
    CapitaliseAt(u, false, i);
  }
}
