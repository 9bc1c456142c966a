/** UTF-8 as Go's unicode/utf8 reads it, and the replacement that json.Marshal applies to a string. */
module Utf8 {

  predicate Between(c: char, low: int, high: int) { low <= c as int <= high }

  predicate IsContinuation(c: char) { Between(c, 0x80, 0xBF) }

  /** The second byte after a three-byte lead: no overlong forms, no surrogates. */
  predicate SecondOfThree(lead: char, c: char) {
    if lead as int == 0xE0 then Between(c, 0xA0, 0xBF)
    else if lead as int == 0xED then Between(c, 0x80, 0x9F)
    else IsContinuation(c)
  }

  /** The second byte after a four-byte lead: no overlong forms, nothing above U+10FFFF. */
  predicate SecondOfFour(lead: char, c: char) {
    if lead as int == 0xF0 then Between(c, 0x90, 0xBF)
    else if lead as int == 0xF4 then Between(c, 0x80, 0x8F)
    else IsContinuation(c)
  }

  /** utf8.DecodeRune: the bytes of the character at the front, or 0 where it reports an error. */
  function RuneLen(s: string): (n: nat)
    ensures n <= |s| && n <= 4
  {
    if s == "" then 0
    else if s[0] as int < 0x80 then 1
    else if Between(s[0], 0xC2, 0xDF) then
      if |s| >= 2 && IsContinuation(s[1]) then 2 else 0
    else if Between(s[0], 0xE0, 0xEF) then
      if |s| >= 3 && SecondOfThree(s[0], s[1]) && IsContinuation(s[2]) then 3 else 0
    else if Between(s[0], 0xF0, 0xF4) then
      if |s| >= 4 && SecondOfFour(s[0], s[1]) && IsContinuation(s[2]) && IsContinuation(s[3]) then 4 else 0
    else 0
  }

  /** utf8.ValidString. */
  predicate ValidUtf8(s: string) {
    s == "" || (RuneLen(s) > 0 && ValidUtf8(s[RuneLen(s)..]))
  }

  /** The bytes of U+FFFD. */
  const REPLACEMENT := [0xEF as char, 0xBF as char, 0xBD as char]

  /** What comes back of a string after json.Marshal: every byte that starts no character is replaced. */
  function Coerce(s: string): (r: string)
    ensures r == "" <==> s == ""
  {
    if s == "" then ""
    else if RuneLen(s) == 0 then REPLACEMENT + Coerce(s[1..])
    else s[..RuneLen(s)] + Coerce(s[RuneLen(s)..])
  }

  lemma {:induction false} CoerceGrows(s: string)
    ensures |Coerce(s)| >= |s|
    ensures |Coerce(s)| == |s| ==> ValidUtf8(s)
  {
    if s != "" {
      CoerceGrows(s[if RuneLen(s) == 0 then 1 else RuneLen(s)..]);
    }
  }

  /** json.Marshal keeps exactly the valid strings. */
  lemma {:induction false} CoerceKeepsValid(s: string)
    ensures Coerce(s) == s <==> ValidUtf8(s)
  {
    CoerceGrows(s);
    if s != "" && ValidUtf8(s) {
      CoerceKeepsValid(s[RuneLen(s)..]);
      assert s == s[..RuneLen(s)] + s[RuneLen(s)..];
    }
  }

  lemma RuneLenOfPrefix(s: string, t: string)
    requires RuneLen(s) == |s| > 0
    ensures RuneLen(s + t) == |s|
  {
  }

  lemma {:induction false} PrependRune(s: string, t: string)
    requires RuneLen(s) == |s| > 0 && ValidUtf8(t)
    ensures ValidUtf8(s + t)
  {
    RuneLenOfPrefix(s, t);
    assert (s + t)[|s|..] == t;
  }

  /** And what it writes is valid. */
  lemma {:induction false} CoerceIsValid(s: string)
    ensures ValidUtf8(Coerce(s))
  {
    if s != "" {
      if RuneLen(s) == 0 {
        CoerceIsValid(s[1..]);
        PrependRune(REPLACEMENT, Coerce(s[1..]));
      } else {
        CoerceIsValid(s[RuneLen(s)..]);
        PrependRune(s[..RuneLen(s)], Coerce(s[RuneLen(s)..]));
      }
    }
  }

  lemma {:induction false} AsciiIsValid(s: string)
    requires forall i :: 0 <= i < |s| ==> s[i] as int < 0x80
    ensures ValidUtf8(s)
  {
    if s != "" {
      AsciiIsValid(s[1..]);
    }
  }

  // ---------------------------------------------------------------- the characters

  /** A Unicode scalar value: a code point that is no surrogate. */
  predicate IsScalar(cp: int) { 0 <= cp < 0xD800 || 0xE000 <= cp <= 0x10FFFF }

  /** Its encoding, section 3 of RFC 3629. */
  function EncodeRune(cp: int): (s: string)
    requires IsScalar(cp)
    ensures 1 <= |s| <= 4
  {
    if cp < 0x80 then [cp as char]
    else if cp < 0x800 then [(0xC0 + cp / 64) as char, (0x80 + cp % 64) as char]
    else if cp < 0x10000 then
      [(0xE0 + cp / 4096) as char, (0x80 + cp / 64 % 64) as char, (0x80 + cp % 64) as char]
    else
      [(0xF0 + cp / 262144) as char, (0x80 + cp / 4096 % 64) as char, (0x80 + cp / 64 % 64) as char,
       (0x80 + cp % 64) as char]
  }

  lemma TwoRead(a: int, b: int, rest: string)
    requires 2 <= a < 32 && 0 <= b < 64
    ensures RuneLen([(0xC0 + a) as char, (0x80 + b) as char] + rest) == 2
  {
    var s := [(0xC0 + a) as char, (0x80 + b) as char] + rest;
    assert s[0] as int == 0xC0 + a && s[1] as int == 0x80 + b;
  }

  lemma ThreeRead(a: int, b: int, c: int, rest: string)
    requires 0 <= a < 16 && 0 <= b < 64 && 0 <= c < 64 && (a == 0 ==> b >= 32) && (a == 13 ==> b < 32)
    ensures RuneLen([(0xE0 + a) as char, (0x80 + b) as char, (0x80 + c) as char] + rest) == 3
  {
    var s := [(0xE0 + a) as char, (0x80 + b) as char, (0x80 + c) as char] + rest;
    assert s[0] as int == 0xE0 + a && s[1] as int == 0x80 + b && s[2] as int == 0x80 + c;
  }

  lemma FourRead(a: int, b: int, c: int, d: int, rest: string)
    requires 0 <= a < 5 && 0 <= b < 64 && 0 <= c < 64 && 0 <= d < 64 && (a == 0 ==> b >= 16) && (a == 4 ==> b < 16)
    ensures RuneLen([(0xF0 + a) as char, (0x80 + b) as char, (0x80 + c) as char, (0x80 + d) as char] + rest) == 4
  {
    var s := [(0xF0 + a) as char, (0x80 + b) as char, (0x80 + c) as char, (0x80 + d) as char] + rest;
    assert s[0] as int == 0xF0 + a && s[1] as int == 0x80 + b && s[2] as int == 0x80 + c && s[3] as int == 0x80 + d;
  }

  lemma EncodedIsRune(cp: int, rest: string)
    requires IsScalar(cp)
    ensures RuneLen(EncodeRune(cp) + rest) == |EncodeRune(cp)|
  {
    if cp < 0x80 {
      assert (EncodeRune(cp) + rest)[0] as int == cp;
    } else {
      hide RuneLen;
      if cp < 0x800 {
        TwoRead(cp / 64, cp % 64, rest);
      } else if cp < 0x10000 {
        ThreeParts(cp);
        ThreeRead(cp / 4096, cp / 64 % 64, cp % 64, rest);
      } else {
        FourParts(cp);
        FourRead(cp / 262144, cp / 4096 % 64, cp / 64 % 64, cp % 64, rest);
      }
    }
  }

  lemma ThreeParts(cp: int)
    requires IsScalar(cp) && 0x800 <= cp < 0x10000
    ensures var (a, b) := (cp / 4096, cp / 64 % 64);
      0 <= a < 16 && (a == 0 ==> b >= 32) && (a == 13 ==> b < 32)
  {
    assert cp / 64 == cp / 4096 * 64 + cp / 64 % 64;
  }

  lemma FourParts(cp: int)
    requires IsScalar(cp) && cp >= 0x10000
    ensures var (a, b) := (cp / 262144, cp / 4096 % 64);
      0 <= a < 5 && (a == 0 ==> b >= 16) && (a == 4 ==> b < 16)
  {
    assert cp / 4096 == cp / 262144 * 64 + cp / 4096 % 64;
  }

  lemma TwoBytes(a: int, b: int)
    requires 2 <= a < 32 && 0 <= b < 64
    ensures IsScalar(a * 64 + b) && EncodeRune(a * 64 + b) == [(0xC0 + a) as char, (0x80 + b) as char]
  {
  }

  lemma ThreeBytes(a: int, b: int, c: int)
    requires 0 <= a < 16 && 0 <= b < 64 && 0 <= c < 64 && (a == 0 ==> b >= 32) && (a == 13 ==> b < 32)
    ensures var cp := a * 4096 + b * 64 + c;
      IsScalar(cp) && EncodeRune(cp) == [(0xE0 + a) as char, (0x80 + b) as char, (0x80 + c) as char]
  {
    var cp := a * 4096 + b * 64 + c;
    assert cp / 64 == a * 64 + b && cp % 64 == c;
    assert cp / 4096 == a && cp / 64 % 64 == b;
  }

  lemma FourBytes(a: int, b: int, c: int, d: int)
    requires 0 <= a < 5 && 0 <= b < 64 && 0 <= c < 64 && 0 <= d < 64 && (a == 0 ==> b >= 16) && (a == 4 ==> b < 16)
    ensures var cp := a * 262144 + b * 4096 + c * 64 + d;
      && IsScalar(cp)
      && EncodeRune(cp) == [(0xF0 + a) as char, (0x80 + b) as char, (0x80 + c) as char, (0x80 + d) as char]
  {
    var cp := a * 262144 + b * 4096 + c * 64 + d;
    assert cp / 64 == a * 4096 + b * 64 + c && cp % 64 == d;
    assert cp / 4096 == a * 64 + b && cp / 64 % 64 == c;
    assert cp / 262144 == a && cp / 4096 % 64 == b;
  }

  /** What is read at the front of a string is the encoding of a scalar value. */
  lemma RuneIsEncoded(s: string)
    requires RuneLen(s) > 0
    ensures IsScalar(ScalarAt(s)) && EncodeRune(ScalarAt(s)) == s[..RuneLen(s)]
  {
    hide EncodeRune, IsScalar;
    var n := RuneLen(s);
    if n == 1 {
      OneByte(s);
    } else if n == 2 {
      TwoBytes(s[0] as int - 0xC0, s[1] as int - 0x80);
      assert s[..2] == [s[0], s[1]];
    } else if n == 3 {
      ThreeBytes(s[0] as int - 0xE0, s[1] as int - 0x80, s[2] as int - 0x80);
      assert s[..3] == [s[0], s[1], s[2]];
    } else {
      FourBytes(s[0] as int - 0xF0, s[1] as int - 0x80, s[2] as int - 0x80, s[3] as int - 0x80);
      assert s[..4] == [s[0], s[1], s[2], s[3]];
    }
  }

  lemma OneByte(s: string)
    requires s != "" && s[0] as int < 0x80
    ensures IsScalar(s[0] as int) && EncodeRune(s[0] as int) == s[..1]
  {
  }

  /** A string is valid exactly if it is the encodings of scalar values, one after the other. */
  lemma {:induction false} ValidIsEncoded(s: string)
    ensures ValidUtf8(s) <==> exists cps: seq<int> :: AllScalar(cps) && EncodeRunes(cps) == s
  {
    if ValidUtf8(s) {
      Decodes(s);
    }
    forall cps: seq<int> | AllScalar(cps) && EncodeRunes(cps) == s ensures ValidUtf8(s) {
      EncodedIsValid(cps);
    }
  }

  predicate AllScalar(cps: seq<int>) { forall i :: 0 <= i < |cps| ==> IsScalar(cps[i]) }

  function EncodeRunes(cps: seq<int>): string
    requires AllScalar(cps)
  {
    if cps == [] then "" else EncodeRune(cps[0]) + EncodeRunes(cps[1..])
  }

  lemma {:induction false} EncodedIsValid(cps: seq<int>)
    requires AllScalar(cps)
    ensures ValidUtf8(EncodeRunes(cps))
  {
    if cps != [] {
      hide RuneLen, EncodeRune;
      EncodedIsValid(cps[1..]);
      EncodedIsRune(cps[0], EncodeRunes(cps[1..]));
      assert EncodeRunes(cps)[|EncodeRune(cps[0])|..] == EncodeRunes(cps[1..]);
    }
  }

  /** The scalar values that a valid string encodes. */
  function Scalars(s: string): seq<int>
    requires ValidUtf8(s)
  {
    if s == "" then [] else [ScalarAt(s)] + Scalars(s[RuneLen(s)..])
  }

  /** The code point at the front of a string. */
  function ScalarAt(s: string): int
    requires RuneLen(s) > 0
  {
    var n := RuneLen(s);
    if n == 1 then s[0] as int
    else if n == 2 then (s[0] as int - 0xC0) * 64 + (s[1] as int - 0x80)
    else if n == 3 then (s[0] as int - 0xE0) * 4096 + (s[1] as int - 0x80) * 64 + (s[2] as int - 0x80)
    else (s[0] as int - 0xF0) * 262144 + (s[1] as int - 0x80) * 4096 + (s[2] as int - 0x80) * 64 + (s[3] as int - 0x80)
  }

  lemma {:induction false} Decodes(s: string)
    requires ValidUtf8(s)
    ensures AllScalar(Scalars(s)) && EncodeRunes(Scalars(s)) == s
  {
    hide *;
    if s != "" {
      var n := RuneLen(s);
      ScalarsCons(s);
      Decodes(s[n..]);
      RuneIsEncoded(s);
      EncodeCons(ScalarAt(s), Scalars(s[n..]));
      assert s == s[..n] + s[n..];
    } else {
      NoScalars();
    }
  }

  lemma NoScalars()
    ensures ValidUtf8("") && Scalars("") == [] && AllScalar([]) && EncodeRunes([]) == ""
  {
  }

  lemma ScalarsCons(s: string)
    requires ValidUtf8(s) && s != ""
    ensures RuneLen(s) > 0 && ValidUtf8(s[RuneLen(s)..]) && Scalars(s) == [ScalarAt(s)] + Scalars(s[RuneLen(s)..])
  {
    hide RuneLen, ScalarAt;
  }

  lemma EncodeCons(cp: int, cps: seq<int>)
    requires IsScalar(cp) && AllScalar(cps)
    ensures AllScalar([cp] + cps) && EncodeRunes([cp] + cps) == EncodeRune(cp) + EncodeRunes(cps)
  {
    hide EncodeRune;
    assert ([cp] + cps)[1..] == cps;
  }
}
