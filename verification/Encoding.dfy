/** Lower-case hexadecimal and unpadded base64url text, as the Go library reads and writes them. */
module Encoding {
  import opened Base

  type Byte = x: int | 0 <= x < 256

  // ---------------------------------------------------------------- hexadecimal

  predicate IsLowerHex(c: char) {
    '0' <= c <= '9' || 'a' <= c <= 'f'
  }

  function HexDigit(d: int): (c: char)
    requires 0 <= d < 16
    ensures IsLowerHex(c) && HexValue(c) == d
  {
    if d < 10 then ('0' as int + d) as char else ('a' as int + (d - 10)) as char
  }

  function HexValue(c: char): (d: int)
    requires IsLowerHex(c)
    ensures 0 <= d < 16
  {
    if c <= '9' then c as int - '0' as int else c as int - 'a' as int + 10
  }

  function HexEncode(bs: seq<Byte>): (s: string)
    ensures |s| == 2 * |bs|
    ensures forall i :: 0 <= i < |s| ==> IsLowerHex(s[i])
  {
    if bs == [] then "" else [HexDigit(bs[0] / 16), HexDigit(bs[0] % 16)] + HexEncode(bs[1..])
  }

  function HexDecode(s: string): (bs: seq<Byte>)
    requires |s| % 2 == 0
    requires forall i :: 0 <= i < |s| ==> IsLowerHex(s[i])
    ensures |bs| == |s| / 2
  {
    if s == "" then [] else [HexValue(s[0]) * 16 + HexValue(s[1])] + HexDecode(s[2..])
  }

  lemma {:induction false} HexDecodeEncode(bs: seq<Byte>)
    ensures HexDecode(HexEncode(bs)) == bs
  {
    if bs != [] {
      HexDecodeEncode(bs[1..]);
      assert HexEncode(bs)[2..] == HexEncode(bs[1..]);
    }
  }

  lemma HexDigitValue(c: char)
    requires IsLowerHex(c)
    ensures HexDigit(HexValue(c)) == c
  {
  }

  lemma {:induction false} HexEncodeDecode(s: string)
    requires |s| % 2 == 0
    requires forall i :: 0 <= i < |s| ==> IsLowerHex(s[i])
    ensures HexEncode(HexDecode(s)) == s
  {
    if s != "" {
      HexEncodeDecode(s[2..]);
      HexDigitValue(s[0]);
      HexDigitValue(s[1]);
      DivideAt16(HexValue(s[0]), HexValue(s[1]));
      assert HexDecode(s)[1..] == HexDecode(s[2..]);
      assert s == [s[0], s[1]] + s[2..];
    }
  }

  // ---------------------------------------------------------------- base64url

  /** One character of the URL alphabet, section 5 of RFC 4648. */
  function Symbol(v: int): (c: char)
    requires 0 <= v < 64
    ensures Sextet(c) == Some(v)
  {
    if v < 26 then ('A' as int + v) as char
    else if v < 52 then ('a' as int + (v - 26)) as char
    else if v < 62 then ('0' as int + (v - 52)) as char
    else if v == 62 then '-' else '_'
  }

  function Sextet(c: char): (v: Option<int>)
    ensures v.Some? ==> 0 <= v.value < 64
  {
    if 'A' <= c <= 'Z' then Some(c as int - 'A' as int)
    else if 'a' <= c <= 'z' then Some(c as int - 'a' as int + 26)
    else if '0' <= c <= '9' then Some(c as int - '0' as int + 52)
    else if c == '-' then Some(62) else if c == '_' then Some(63) else None
  }

  lemma SymbolSextet(c: char)
    requires Sextet(c).Some?
    ensures Symbol(Sextet(c).value) == c
  {
  }

  /** RawURLEncoding.EncodedLen: 8 bits a byte, 6 bits a character, rounded up. */
  function EncodedLen(n: nat): nat { (n * 8 + 5) / 6 }

  function SplitQuantum(bs: seq<Byte>): (vs: seq<int>)
    requires 1 <= |bs| <= 3
    ensures |vs| == |bs| + 1 && forall i :: 0 <= i < |vs| ==> 0 <= vs[i] < 64
  {
    if |bs| == 1 then [bs[0] / 4, bs[0] % 4 * 16]
    else if |bs| == 2 then [bs[0] / 4, bs[0] % 4 * 16 + bs[1] / 16, bs[1] % 16 * 4]
    else [bs[0] / 4, bs[0] % 4 * 16 + bs[1] / 16, bs[1] % 16 * 4 + bs[2] / 64, bs[2] % 64]
  }

  function Symbols(vs: seq<int>): (s: string)
    requires forall i :: 0 <= i < |vs| ==> 0 <= vs[i] < 64
    ensures |s| == |vs| && forall i :: 0 <= i < |s| ==> Sextet(s[i]) == Some(vs[i])
  {
    if vs == [] then "" else [Symbol(vs[0])] + Symbols(vs[1..])
  }

  /** RawURLEncoding.EncodeToString. */
  function Base64Encode(bs: seq<Byte>): string {
    if |bs| == 0 then ""
    else
      var n := if |bs| < 3 then |bs| else 3;
      Symbols(SplitQuantum(bs[..n])) + Base64Encode(bs[n..])
  }

  /** The characters the Go decoder looks at: it skips carriage returns and line feeds anywhere. */
  function SkipNewlines(s: string): string {
    if s == "" then ""
    else if s[0] == '\r' || s[0] == '\n' then SkipNewlines(s[1..])
    else [s[0]] + SkipNewlines(s[1..])
  }

  function Sextets(s: string): (vs: Option<seq<int>>)
    ensures vs.Some? ==> |vs.value| == |s| && forall i :: 0 <= i < |s| ==> Sextet(s[i]) == Some(vs.value[i])
    ensures vs.None? ==> exists i :: 0 <= i < |s| && Sextet(s[i]).None?
  {
    if s == "" then Some([])
    else
      match (Sextet(s[0]), Sextets(s[1..]))
      case (Some(v), Some(vs)) => Some([v] + vs)
      case _ => None
  }

  /** The bytes of one quantum of two to four characters; strict about the bits left over. */
  function Quantum(vs: seq<int>): Option<seq<Byte>>
    requires 2 <= |vs| <= 4 && forall i :: 0 <= i < |vs| ==> 0 <= vs[i] < 64
  {
    var first := vs[0] * 4 + vs[1] / 16;
    if |vs| == 2 then
      if vs[1] % 16 == 0 then Some([first]) else None
    else
      var second := vs[1] % 16 * 16 + vs[2] / 4;
      if |vs| == 3 then
        if vs[2] % 4 == 0 then Some([first, second]) else None
      else
        Some([first, second, vs[2] % 4 * 64 + vs[3]])
  }

  /**
   * Quantum by quantum decoding with strict trailing bits, section 3.5 of RFC 4648.
   * A lone trailing character and every character outside the alphabet, '=' included, is an error.
   */
  function DecodeQuanta(s: string): Option<seq<Byte>> {
    if |s| == 0 then Some([])
    else if |s| == 1 then None
    else
      var n := if |s| < 4 then |s| else 4;
      match Sextets(s[..n])
      case None => None
      case Some(vs) =>
        match Quantum(vs)
        case None => None
        case Some(bytes) =>
          match DecodeQuanta(s[n..])
          case None => None
          case Some(rest) => Some(bytes + rest)
  }

  /** RawURLEncoding.Strict().DecodeString. */
  function Base64Decode(s: string): Option<seq<Byte>> {
    DecodeQuanta(SkipNewlines(s))
  }

  lemma DivideAt4(a: int, b: int)
    requires 0 <= b < 4
    ensures (a * 4 + b) / 4 == a && (a * 4 + b) % 4 == b
  {
  }

  lemma DivideAt16(a: int, b: int)
    requires 0 <= b < 16
    ensures (a * 16 + b) / 16 == a && (a * 16 + b) % 16 == b
  {
  }

  lemma DivideAt64(a: int, b: int)
    requires 0 <= b < 64
    ensures (a * 64 + b) / 64 == a && (a * 64 + b) % 64 == b
  {
  }

  lemma QuantumSplit(bs: seq<Byte>)
    requires 1 <= |bs| <= 3
    ensures Quantum(SplitQuantum(bs)) == Some(bs)
  {
    var x := bs[0];
    var got := Quantum(SplitQuantum(bs));
    DivideAt16(x % 4, 0);
    if |bs| == 1 {
      assert bs == [x] == got.value;
    } else {
      var y := bs[1];
      DivideAt16(x % 4, y / 16);
      DivideAt4(y % 16, 0);
      if |bs| == 2 {
        assert bs == [x, y] == got.value;
      } else {
        DivideAt4(y % 16, bs[2] / 64);
        assert bs == [x, y, bs[2]] == got.value;
      }
    }
  }

  lemma SplitOfQuantum(vs: seq<int>)
    requires 2 <= |vs| <= 4 && forall i :: 0 <= i < |vs| ==> 0 <= vs[i] < 64
    requires Quantum(vs).Some?
    ensures SplitQuantum(Quantum(vs).value) == vs
  {
    DivideAt4(vs[0], vs[1] / 16);
    if |vs| > 2 {
      DivideAt16(vs[1] % 16, vs[2] / 4);
      if |vs| > 3 {
        DivideAt64(vs[2] % 4, vs[3]);
      }
    }
  }

  lemma SymbolsOfSextets(s: string)
    requires Sextets(s).Some?
    ensures Symbols(Sextets(s).value) == s
  {
    forall i | 0 <= i < |s| ensures Symbols(Sextets(s).value)[i] == s[i] {
      SymbolSextet(s[i]);
      SymbolSextet(Symbols(Sextets(s).value)[i]);
    }
  }

  lemma SextetsOfSymbols(vs: seq<int>)
    requires forall i :: 0 <= i < |vs| ==> 0 <= vs[i] < 64
    ensures Sextets(Symbols(vs)) == Some(vs)
  {
    forall i | 0 <= i < |vs| ensures Sextet(Symbols(vs)[i]) == Some(vs[i]) {}
    assert Sextets(Symbols(vs)).Some?;
    assert Sextets(Symbols(vs)).value == vs;
  }

  lemma {:induction false} DecodeEncode(bs: seq<Byte>)
    ensures DecodeQuanta(Base64Encode(bs)) == Some(bs)
  {
    if |bs| > 0 {
      var n := if |bs| < 3 then |bs| else 3;
      var vs := SplitQuantum(bs[..n]);
      var s := Base64Encode(bs);
      var k := if |s| < 4 then |s| else 4;
      DecodeEncode(bs[n..]);
      QuantumSplit(bs[..n]);
      assert s[..k] == Symbols(vs) && s[k..] == Base64Encode(bs[n..]);
      SextetsOfSymbols(vs);
      assert bs == bs[..n] + bs[n..];
    }
  }

  lemma {:induction false} EncodeDecode(s: string)
    requires DecodeQuanta(s).Some?
    ensures Base64Encode(DecodeQuanta(s).value) == s
  {
    if |s| >= 2 {
      var n := if |s| < 4 then |s| else 4;
      var vs := Sextets(s[..n]).value;
      var head := Quantum(vs).value;
      var bs := DecodeQuanta(s).value;
      EncodeDecode(s[n..]);
      SplitOfQuantum(vs);
      SymbolsOfSextets(s[..n]);
      assert |s| <= 4 ==> DecodeQuanta(s[n..]).value == [];
      var k := if |bs| < 3 then |bs| else 3;
      assert bs[..k] == head && bs[k..] == DecodeQuanta(s[n..]).value;
      assert s == s[..n] + s[n..];
    }
  }

  lemma {:induction false} EncodedLength(bs: seq<Byte>)
    ensures |Base64Encode(bs)| == EncodedLen(|bs|)
  {
    if |bs| >= 3 {
      EncodedLength(bs[3..]);
    }
  }

  lemma {:induction false} EncodeIsPlain(bs: seq<Byte>)
    ensures forall i :: 0 <= i < |Base64Encode(bs)| ==> Sextet(Base64Encode(bs)[i]).Some?
  {
    if |bs| >= 3 {
      EncodeIsPlain(bs[3..]);
    }
  }

  lemma {:induction false} SkipNothing(s: string)
    requires forall i :: 0 <= i < |s| ==> Sextet(s[i]).Some?
    ensures SkipNewlines(s) == s
  {
    if s != "" {
      SkipNothing(s[1..]);
      assert s == [s[0]] + s[1..];
    }
  }

  lemma {:induction false} SkipShortens(s: string)
    ensures |SkipNewlines(s)| <= |s|
    ensures |SkipNewlines(s)| == |s| ==> SkipNewlines(s) == s
  {
    if s != "" {
      SkipShortens(s[1..]);
    }
  }

  /**
   * Within one encoded length, the strict decoder accepts exactly the encoder's image and
   * inverts it: no padding, no stray trailing bits, no skipped line break gets through.
   */
  lemma Base64Exact(s: string, bs: seq<Byte>)
    requires |s| == EncodedLen(|bs|)
    ensures Base64Decode(s) == Some(bs) <==> s == Base64Encode(bs)
  {
    if s == Base64Encode(bs) {
      EncodeIsPlain(bs);
      SkipNothing(s);
      DecodeEncode(bs);
    }
    if Base64Decode(s) == Some(bs) {
      EncodeDecode(SkipNewlines(s));
      EncodedLength(bs);
      SkipShortens(s);
    }
  }

  // ---------------------------------------------------------------- the alphabets and the order of bits

  /** The hex digits are 0 to 9 and then a to f. */
  lemma HexAlphabet(d: int)
    requires 0 <= d < 16
    ensures HexDigit(0) == '0' && HexDigit(9) == '9' && HexDigit(10) == 'a' && HexDigit(15) == 'f'
    ensures d !in {9, 15} ==> HexDigit(d + 1) as int == HexDigit(d) as int + 1
  {
  }

  /** The alphabet of section 5 of RFC 4648: A to Z, a to z, 0 to 9, minus and underline. */
  lemma Base64Alphabet(v: int)
    requires 0 <= v < 64
    ensures Symbol(0) == 'A' && Symbol(25) == 'Z' && Symbol(26) == 'a' && Symbol(51) == 'z'
    ensures Symbol(52) == '0' && Symbol(61) == '9' && Symbol(62) == '-' && Symbol(63) == '_'
    ensures v !in {25, 51, 61, 62, 63} ==> Symbol(v + 1) as int == Symbol(v) as int + 1
  {
  }

  /** Hex text is, byte by byte, the digit of the high half and that of the low half. */
  lemma {:induction false} HexAt(bs: seq<Byte>, i: nat)
    requires i < |bs|
    ensures HexEncode(bs)[2 * i] == HexDigit(bs[i] / 16) && HexEncode(bs)[2 * i + 1] == HexDigit(bs[i] % 16)
  {
    if i > 0 {
      HexAt(bs[1..], i - 1);
      assert HexEncode(bs) == HexEncode(bs)[..2] + HexEncode(bs[1..]);
    }
  }

  /** Entry i of a sequence, or zero bits behind its end. */
  function At(xs: seq<int>, i: nat): int { if i < |xs| then xs[i] else 0 }

  /** Three bytes and four characters are the same 24 bits, the first byte highest; a rest is filled with zero bits. */
  lemma QuantumIsNumber(bs: seq<Byte>)
    requires 1 <= |bs| <= 3
    ensures var vs := SplitQuantum(bs);
      At(vs, 0) * 262144 + At(vs, 1) * 4096 + At(vs, 2) * 64 + At(vs, 3)
      == At(bs, 0) * 65536 + At(bs, 1) * 256 + At(bs, 2)
  {
  }

  lemma {:induction false} SymbolsAt(vs: seq<int>, k: nat)
    requires (forall i :: 0 <= i < |vs| ==> 0 <= vs[i] < 64) && k < |vs|
    ensures Symbols(vs)[k] == Symbol(vs[k])
  {
    if k > 0 {
      SymbolsAt(vs[1..], k - 1);
    }
  }

  /** The group of three bytes, or the rest, that starts at byte 3 * i. */
  function Group(bs: seq<Byte>, i: nat): (g: seq<Byte>)
    requires 3 * i < |bs|
    ensures 1 <= |g| <= 3
  {
    if |bs| - 3 * i < 3 then bs[3 * i..] else bs[3 * i..3 * i + 3]
  }

  /** Every group, from the front, is the next characters of the text. */
  lemma {:induction false} Base64At(bs: seq<Byte>, i: nat, k: nat)
    requires 3 * i < |bs| && k < |SplitQuantum(Group(bs, i))|
    ensures 4 * i + k < |Base64Encode(bs)|
    ensures Base64Encode(bs)[4 * i + k] == Symbol(SplitQuantum(Group(bs, i))[k])
  {
    hide *;
    FirstGroup(bs);
    if i == 0 {
      SymbolsAt(SplitQuantum(Group(bs, 0)), k);
    } else {
      GroupShift(bs, i);
      Base64At(bs[3..], i - 1, k);
      var first, rest := Symbols(SplitQuantum(Group(bs, 0))), Base64Encode(bs[3..]);
      assert (first + rest)[4 + (4 * (i - 1) + k)] == rest[4 * (i - 1) + k];
    }
  }

  lemma GroupShift(bs: seq<Byte>, i: nat)
    requires 0 < i && 3 * i < |bs|
    ensures |Group(bs, 0)| == 3 && Group(bs[3..], i - 1) == Group(bs, i)
  {
  }

  lemma FirstGroup(bs: seq<Byte>)
    requires bs != []
    ensures Base64Encode(bs) == Symbols(SplitQuantum(Group(bs, 0))) + Base64Encode(bs[|Group(bs, 0)|..])
  {
    var n := if |bs| < 3 then |bs| else 3;
    assert bs[..n] == Group(bs, 0);
  }
}
