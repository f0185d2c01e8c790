/**
 base64.RawURLEncoding: sections 5 and 3.2 of RFC 4648, the URL-safe alphabet without padding.
 A byte is a char below 256.
 */
module Base64Url {
  import opened Text

  predicate IsBytes(s: string) {
    forall i | 0 <= i < |s| :: s[i] as int < 256
  }

  /** Table 2 of section 5 of RFC 4648. */
  function Digit(v: int): (c: char)
    requires 0 <= v < 64
    ensures c != '\n' && c != '\r'
  {
    if v < 26 then ('A' as int + v) as char
    else if v < 52 then ('a' as int + v - 26) as char
    else if v < 62 then ('0' as int + v - 52) as char
    else if v == 62 then '-' else '_'
  }

  function Value(c: char): (v: Option<int>)
    ensures v.Some? ==> 0 <= v.value < 64
  {
    if 'A' <= c <= 'Z' then Some(c as int - 'A' as int)
    else if 'a' <= c <= 'z' then Some(c as int - 'a' as int + 26)
    else if '0' <= c <= '9' then Some(c as int - '0' as int + 52)
    else if c == '-' then Some(62)
    else if c == '_' then Some(63)
    else None
  }

  lemma ValueOfDigit(v: int)
    requires 0 <= v < 64
    ensures Value(Digit(v)) == Some(v)
  {}

  predicate NoBreaks(t: string) {
    forall i | 0 <= i < |t| :: t[i] != '\n' && t[i] != '\r'
  }

  // One, two or three bytes as two, three or four digits.

  function Digits1(x: char): (t: string)
    requires x as int < 256
    ensures |t| == 2 && NoBreaks(t)
  {
    var a := x as int;
    [Digit(a / 4), Digit(a % 4 * 16)]
  }

  function Digits2(x: char, y: char): (t: string)
    requires x as int < 256 && y as int < 256
    ensures |t| == 3 && NoBreaks(t)
  {
    var a, b := x as int, y as int;
    [Digit(a / 4), Digit(a % 4 * 16 + b / 16), Digit(b % 16 * 4)]
  }

  function Digits3(x: char, y: char, z: char): (t: string)
    requires x as int < 256 && y as int < 256 && z as int < 256
    ensures |t| == 4 && NoBreaks(t)
  {
    var a, b, c := x as int, y as int, z as int;
    [Digit(a / 4), Digit(a % 4 * 16 + b / 16), Digit(b % 16 * 4 + c / 64), Digit(c % 64)]
  }

  function Encode(s: string): (t: string)
    requires IsBytes(s)
    ensures NoBreaks(t)
  {
    if s == [] then []
    else if |s| == 1 then Digits1(s[0])
    else if |s| == 2 then Digits2(s[0], s[1])
    else Digits3(s[0], s[1], s[2]) + Encode(s[3..])
  }

  /** The decoder skips line breaks. */
  function WithoutBreaks(t: string): string {
    if t == [] then []
    else if t[0] == '\n' || t[0] == '\r' then WithoutBreaks(t[1..])
    else [t[0]] + WithoutBreaks(t[1..])
  }

  /** None for a character outside the alphabet or a lone last digit. */
  function DecodeDigits(t: string): (s: Option<string>)
    ensures s.Some? ==> IsBytes(s.value)
  {
    if t == [] then Some([])
    else if |t| == 1 then None
    else
      var v0, v1 := Value(t[0]), Value(t[1]);
      if v0.None? || v1.None? then None
      else
        var a := (v0.value * 4 + v1.value / 16) as char;
        if |t| == 2 then Some([a])
        else
          var v2 := Value(t[2]);
          if v2.None? then None
          else
            var b := (v1.value % 16 * 16 + v2.value / 4) as char;
            if |t| == 3 then Some([a, b])
            else
              var v3 := Value(t[3]);
              var rest := DecodeDigits(t[4..]);
              if v3.None? || rest.None? then None
              else Some([a, b, (v2.value % 4 * 64 + v3.value) as char] + rest.value)
  }

  function Decode(t: string): Option<string> {
    DecodeDigits(WithoutBreaks(t))
  }

  lemma {:induction false} NothingToSkip(t: string)
    requires NoBreaks(t)
    ensures WithoutBreaks(t) == t
  {
    if t != [] {
      NothingToSkip(t[1..]);
    }
  }

  /** Three bytes survive four digits. */
  lemma Group(a: int, b: int, c: int)
    requires 0 <= a < 256 && 0 <= b < 256 && 0 <= c < 256
    ensures a / 4 * 4 + (a % 4 * 16 + b / 16) / 16 == a
    ensures (a % 4 * 16 + b / 16) % 16 * 16 + (b % 16 * 4 + c / 64) / 4 == b
    ensures (b % 16 * 4 + c / 64) % 4 * 64 + c % 64 == c
  {}

  lemma OneDecodes(x: char)
    requires x as int < 256
    ensures DecodeDigits(Digits1(x)) == Some([x])
  {
    var a := x as int;
    Group(a, 0, 0);
    ValueOfDigit(a / 4);
    ValueOfDigit(a % 4 * 16);
  }

  lemma TwoDecode(x: char, y: char)
    requires x as int < 256 && y as int < 256
    ensures DecodeDigits(Digits2(x, y)) == Some([x, y])
  {
    var a, b := x as int, y as int;
    Group(a, b, 0);
    ValueOfDigit(a / 4);
    ValueOfDigit(a % 4 * 16 + b / 16);
    ValueOfDigit(b % 16 * 4);
  }

  /** The bytes that four six-bit values spell. */
  function Bytes3(v0: int, v1: int, v2: int, v3: int): string
    requires 0 <= v0 < 64 && 0 <= v1 < 64 && 0 <= v2 < 64 && 0 <= v3 < 64
  {
    [(v0 * 4 + v1 / 16) as char, (v1 % 16 * 16 + v2 / 4) as char, (v2 % 4 * 64 + v3) as char]
  }

  lemma FourDecode(v0: int, v1: int, v2: int, v3: int, t: string, s: string)
    requires 0 <= v0 < 64 && 0 <= v1 < 64 && 0 <= v2 < 64 && 0 <= v3 < 64 && DecodeDigits(t) == Some(s)
    ensures DecodeDigits([Digit(v0), Digit(v1), Digit(v2), Digit(v3)] + t) == Some(Bytes3(v0, v1, v2, v3) + s)
  {
    ValueOfDigit(v0);
    ValueOfDigit(v1);
    ValueOfDigit(v2);
    ValueOfDigit(v3);
    assert ([Digit(v0), Digit(v1), Digit(v2), Digit(v3)] + t)[4..] == t;
  }

  lemma Regrouped(x: char, y: char, z: char)
    requires x as int < 256 && y as int < 256 && z as int < 256
    ensures var a, b, c := x as int, y as int, z as int;
            Bytes3(a / 4, a % 4 * 16 + b / 16, b % 16 * 4 + c / 64, c % 64) == [x, y, z]
  {
    Group(x as int, y as int, z as int);
  }

  lemma ThreeDecode(x: char, y: char, z: char, t: string, s: string)
    requires x as int < 256 && y as int < 256 && z as int < 256 && DecodeDigits(t) == Some(s)
    ensures DecodeDigits(Digits3(x, y, z) + t) == Some([x, y, z] + s)
  {
    var a, b, c := x as int, y as int, z as int;
    Regrouped(x, y, z);
    FourDecode(a / 4, a % 4 * 16 + b / 16, b % 16 * 4 + c / 64, c % 64, t, s);
  }

  lemma SingleRoundTrip(s: string)
    requires IsBytes(s) && |s| == 1
    ensures DecodeDigits(Encode(s)) == Some(s)
  {
    OneDecodes(s[0]);
    assert s == [s[0]];
  }

  lemma PairRoundTrip(s: string)
    requires IsBytes(s) && |s| == 2
    ensures DecodeDigits(Encode(s)) == Some(s)
  {
    TwoDecode(s[0], s[1]);
    assert s == [s[0], s[1]];
  }

  lemma {:induction false} DigitsRoundTrip(s: string)
    requires IsBytes(s)
    ensures DecodeDigits(Encode(s)) == Some(s)
  {
    if |s| >= 3 {
      var rest := s[3..];
      DigitsRoundTrip(rest);
      ThreeDecode(s[0], s[1], s[2], Encode(rest), rest);
      assert [s[0], s[1], s[2]] + rest == s;
    } else if |s| == 2 {
      PairRoundTrip(s);
    } else if |s| == 1 {
      SingleRoundTrip(s);
    } else {
      assert s == "";
    }
  }

  lemma RoundTrip(s: string)
    requires IsBytes(s)
    ensures Decode(Encode(s)) == Some(s)
  {
    NothingToSkip(Encode(s));
    DigitsRoundTrip(s);
  }
}
