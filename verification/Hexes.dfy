/** Hex color codes: digits, channels, and the normalization NewHex performs. */
module Hexes {
  import opened Text

  const HEX_LEN := 7
  const DIGITS := "0123456789abcdef"

  predicate IsHexDigit(c: char) {
    '0' <= c <= '9' || 'a' <= c <= 'f'
  }

  /** The stored form: `^#[0-9a-f]{6}$`. */
  predicate IsHex(h: string) {
    |h| == HEX_LEN && h[0] == '#' && forall i | 1 <= i < HEX_LEN :: IsHexDigit(h[i])
  }

  /** 0 for anything but a digit of a normalized hex. */
  function HexDigit(c: char): (v: int)
    ensures 0 <= v < 16
  {
    if '0' <= c <= '9' then c as int - '0' as int
    else if 'a' <= c <= 'f' then c as int - 'a' as int + 10
    else 0
  }

  /** One channel, 0 to 255, read at i and i+1. */
  function ChannelByte(h: string, i: nat): (v: int)
    requires i + 1 < |h|
    ensures 0 <= v <= 255
  {
    HexDigit(h[i]) * 16 + HexDigit(h[i + 1])
  }

  function ChannelNormalized(h: string, i: nat): (v: real)
    requires i + 1 < |h|
    ensures 0.0 <= v <= 1.0
  {
    ChannelByte(h, i) as real / 255.0
  }

  lemma DigitOfValue(v: int)
    requires 0 <= v < 16
    ensures IsHexDigit(DIGITS[v]) && HexDigit(DIGITS[v]) == v
  {
    assert DIGITS == ['0', '1', '2', '3', '4', '5', '6', '7', '8', '9', 'a', 'b', 'c', 'd', 'e', 'f'];
  }

  lemma ValueOfDigit(c: char)
    requires IsHexDigit(c)
    ensures DIGITS[HexDigit(c)] == c
  {
    assert DIGITS == ['0', '1', '2', '3', '4', '5', '6', '7', '8', '9', 'a', 'b', 'c', 'd', 'e', 'f'];
  }

  // ---- NewHex ----

  predicate IsSpace(c: char) {
    c == ' ' || '\t' <= c <= '\r'
  }

  function TrimLeft(s: string): string {
    if s != [] && IsSpace(s[0]) then TrimLeft(s[1..]) else s
  }

  function TrimRight(s: string): string {
    if s != [] && IsSpace(s[|s| - 1]) then TrimRight(s[..|s| - 1]) else s
  }

  function Lower(c: char): char {
    if 'A' <= c <= 'F' then (c as int + 32) as char else c
  }

  /** Trimmed, '#' optional, six digits of either case; the result is the stored form. */
  function NewHex(s: string): (h: Option<string>)
    ensures h.Some? ==> IsHex(h.value)
  {
    OfTrimmed(TrimRight(TrimLeft(s)))
  }

  function OfTrimmed(t: string): (h: Option<string>)
    ensures h.Some? ==> IsHex(h.value)
  {
    var digits := if t != [] && t[0] == '#' then t[1..] else t;
    if |digits| == 6 && forall i | 0 <= i < 6 :: IsHexDigit(Lower(digits[i]))
    then Some("#" + seq(6, i requires 0 <= i < 6 => Lower(digits[i])))
    else None
  }

  /** Nothing but ASCII white space: tab to carriage return, and the space. */
  predicate Spaces(s: string) { forall i | 0 <= i < |s| :: s[i] as int in {9, 10, 11, 12, 13, 32} }

  /** `c` is the digit `d`, or its capital. */
  predicate SameDigit(c: char, d: char) {
    c == d || ('a' <= d <= 'f' && c as int == d as int - 'a' as int + 'A' as int)
  }

  predicate SixDigits(t: string, h: string)
    requires IsHex(h)
  {
    |t| == 6 && forall i | 0 <= i < 6 :: SameDigit(t[i], h[i + 1])
  }

  /** Six digits that say `h` in either case, behind a '#' or not. */
  predicate Spells(t: string, h: string)
    requires IsHex(h)
  {
    SixDigits(t, h) || (t != [] && t[0] == '#' && SixDigits(t[1..], h))
  }

  /** `s` is `t` with spaces around it. */
  ghost predicate Around(s: string, pre: string, t: string, post: string) {
    s == pre + t + post && Spaces(pre) && Spaces(post)
  }

  lemma {:induction false} LeftTrimmed(s: string) returns (pre: string)
    ensures s == pre + TrimLeft(s) && Spaces(pre)
    ensures TrimLeft(s) != [] ==> !IsSpace(TrimLeft(s)[0])
  {
    pre := [];
    if s != [] && IsSpace(s[0]) {
      var rest := LeftTrimmed(s[1..]);
      pre := [s[0]] + rest;
    }
  }

  lemma {:induction false} RightTrimmed(s: string) returns (post: string)
    ensures s == TrimRight(s) + post && Spaces(post)
    ensures TrimRight(s) != [] ==> !IsSpace(TrimRight(s)[|TrimRight(s)| - 1])
  {
    post := [];
    if s != [] && IsSpace(s[|s| - 1]) {
      var rest := RightTrimmed(s[..|s| - 1]);
      post := rest + [s[|s| - 1]];
    }
  }

  lemma {:induction false} TrimsLeft(pre: string, t: string)
    requires Spaces(pre) && t != [] && !IsSpace(t[0])
    ensures TrimLeft(pre + t) == t
  {
    if pre != [] {
      TrimsLeft(pre[1..], t);
      assert (pre + t)[1..] == pre[1..] + t;
    } else {
      assert pre + t == t;
    }
  }

  lemma {:induction false} TrimsRight(t: string, post: string)
    requires Spaces(post) && t != [] && !IsSpace(t[|t| - 1])
    ensures TrimRight(t + post) == t
  {
    if post != [] {
      TrimsRight(t, post[..|post| - 1]);
      assert (t + post)[..|t + post| - 1] == t + post[..|post| - 1];
    } else {
      assert t + post == t;
    }
  }

  lemma LowersTo(c: char, d: char)
    requires IsHexDigit(d)
    ensures Lower(c) == d <==> SameDigit(c, d)
    ensures SameDigit(c, d) ==> !IsSpace(c) && c != '#'
  {}

  /** Without spaces around it, a text is accepted as `h` exactly when it spells it. */
  lemma {:induction false} TrimmedAccepts(t: string, h: string)
    requires IsHex(h) && TrimRight(TrimLeft(t)) == t
    ensures NewHex(t) == Some(h) <==> Spells(t, h)
  {
    var digits := if t != [] && t[0] == '#' then t[1..] else t;
    forall i | 0 <= i < 6 && i < |digits| ensures Lower(digits[i]) == h[i + 1] <==> SameDigit(digits[i], h[i + 1]) {
      assert IsHexDigit(h[i + 1]);
      LowersTo(digits[i], h[i + 1]);
    }
    if Spells(t, h) {
      SpelledDigits(t, digits, h);
      assert "#" + seq(6, i requires 0 <= i < 6 => Lower(digits[i])) == h;
    }
  }

  lemma {:induction false} SpelledDigits(t: string, digits: string, h: string)
    requires IsHex(h) && Spells(t, h) && digits == if t != [] && t[0] == '#' then t[1..] else t
    ensures |digits| == 6 && forall i | 0 <= i < 6 :: SameDigit(digits[i], h[i + 1])
    ensures !IsSpace(t[0]) && !IsSpace(t[|t| - 1])
  {
    assert IsHexDigit(h[1]) && IsHexDigit(h[6]);
    LowersTo(t[0], h[1]);
    LowersTo(t[|t| - 1], h[6]);
  }

  /**
   A text is accepted as `h` if and only if it is six digits that spell `h`, in either case, with or
   without a '#' before them and any spaces around them.
   */
  lemma {:induction false} NewHexAccepts(s: string, h: string)
    requires IsHex(h)
    ensures NewHex(s) == Some(h) <==> exists pre, t, post :: Around(s, pre, t, post) && Spells(t, h)
  {
    if pre, t, post :| Around(s, pre, t, post) && Spells(t, h) {
      SpelledIsAccepted(s, pre, t, post, h);
    }
    if NewHex(s) == Some(h) {
      var pre := LeftTrimmed(s);
      var post := RightTrimmed(TrimLeft(s));
      var t := TrimRight(TrimLeft(s));
      TrimLeftKeeps(t, post);
      TrimmedAccepts(t, h);
      assert Around(s, pre, t, post);
    }
  }

  lemma {:induction false} SpelledIsAccepted(s: string, pre: string, t: string, post: string, h: string)
    requires IsHex(h) && Around(s, pre, t, post) && Spells(t, h)
    ensures NewHex(s) == Some(h)
  {
    SpelledDigits(t, if t != [] && t[0] == '#' then t[1..] else t, h);
    TrimsAround(pre, t, post);
    TrimsAround([], t, []);
    assert [] + t + [] == t;
    TrimmedAccepts(t, h);
  }

  lemma {:induction false} TrimsAround(pre: string, t: string, post: string)
    requires Spaces(pre) && Spaces(post) && t != [] && !IsSpace(t[0]) && !IsSpace(t[|t| - 1])
    ensures TrimRight(TrimLeft(pre + t + post)) == t
  {
    assert pre + t + post == pre + (t + post) && (t + post)[0] == t[0];
    TrimsLeft(pre, t + post);
    TrimsRight(t, post);
  }

  /** What is left of a trimmed text needs no trimming. */
  lemma {:induction false} TrimLeftKeeps(t: string, post: string)
    requires t + post != [] ==> !IsSpace((t + post)[0])
    requires t != [] ==> !IsSpace(t[|t| - 1])
    ensures TrimRight(TrimLeft(t)) == t
  {
    if t != [] { assert (t + post)[0] == t[0]; }
  }

  /** Normalizing a normalized hex changes nothing. */
  lemma NewHexFixes(h: string)
    requires IsHex(h)
    ensures NewHex(h) == Some(h)
  {
    assert IsHexDigit(h[6]) && IsHexDigit(h[1]);
    assert TrimRight(TrimLeft(h)) == h;
    var digits := h[1..];
    forall i | 0 <= i < 6 ensures Lower(digits[i]) == h[i + 1] {
      assert IsHexDigit(h[i + 1]);
    }
    assert "#" + seq(6, i requires 0 <= i < 6 => Lower(digits[i])) == h;
  }
}
