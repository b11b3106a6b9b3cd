/**
 * The browser's `btoa` and `atob`, which the extension uses to turn file bytes into text
 * for storage and back. `btoa` produces the base 64 encoding of section 4 of RFC 4648
 * (alphabet A-Z a-z 0-9 + /, padded with '='); `atob` is the "forgiving" decoder of the
 * HTML standard: it drops ASCII white space, accepts missing padding and rejects every
 * other character outside the alphabet.
 *
 * JavaScript's "binary strings" (one char per byte, code 0..255) are `string`s here.
 */
module Base64 {
  import opened Wrappers

  type Byte = b: int | 0 <= b < 256

  /** The character of the RFC 4648 alphabet for the 6-bit value `v`. */
  function CharOf(v: int): (c: char)
    requires 0 <= v < 64
  {
    if v < 26 then ('A' as int + v) as char
    else if v < 52 then ('a' as int + v - 26) as char
    else if v < 62 then ('0' as int + v - 52) as char
    else if v == 62 then '+'
    else '/'
  }

  predicate IsAlphabetChar(c: char) {
    'A' <= c <= 'Z' || 'a' <= c <= 'z' || '0' <= c <= '9' || c == '+' || c == '/'
  }

  predicate AllAlphabet(s: string) {
    forall i :: 0 <= i < |s| ==> IsAlphabetChar(s[i])
  }

  /** The 6-bit value of an alphabet character; `CharOf` and `ValueOf` are inverse. */
  function ValueOf(c: char): (v: int)
    requires IsAlphabetChar(c)
    ensures 0 <= v < 64 && CharOf(v) == c
  {
    if 'A' <= c <= 'Z' then c as int - 'A' as int
    else if 'a' <= c <= 'z' then c as int - 'a' as int + 26
    else if '0' <= c <= '9' then c as int - '0' as int + 52
    else if c == '+' then 62
    else 63
  }

  lemma ValueOfCharOf(v: int)
    requires 0 <= v < 64
    ensures IsAlphabetChar(CharOf(v)) && ValueOf(CharOf(v)) == v
  {
  }

  /** The four digits of a full group of three bytes. */
  function Quad(x: Byte, y: Byte, z: Byte): (s: string)
    ensures |s| == 4 && AllAlphabet(s)
  {
    ValueOfCharOf(x / 4); ValueOfCharOf((x % 4) * 16 + y / 16);
    ValueOfCharOf((y % 16) * 4 + z / 64); ValueOfCharOf(z % 64);
    [CharOf(x / 4), CharOf((x % 4) * 16 + y / 16), CharOf((y % 16) * 4 + z / 64), CharOf(z % 64)]
  }

  /** The three digits of a final group of two bytes (the low 2 bits are zero). */
  function Trio(x: Byte, y: Byte): (s: string)
    ensures |s| == 3 && AllAlphabet(s)
  {
    ValueOfCharOf(x / 4); ValueOfCharOf((x % 4) * 16 + y / 16); ValueOfCharOf((y % 16) * 4);
    [CharOf(x / 4), CharOf((x % 4) * 16 + y / 16), CharOf((y % 16) * 4)]
  }

  /** The two digits of a final group of one byte (the low 4 bits are zero). */
  function Duo(x: Byte): (s: string)
    ensures |s| == 2 && AllAlphabet(s)
  {
    ValueOfCharOf(x / 4); ValueOfCharOf((x % 4) * 16);
    [CharOf(x / 4), CharOf((x % 4) * 16)]
  }

  /** The encoding digits without the trailing padding, one 4-character group per 3 bytes. */
  function EncodeDigits(b: seq<Byte>): (s: string)
    ensures AllAlphabet(s)
    decreases |b|
  {
    if |b| == 0 then []
    else if |b| == 1 then Duo(b[0])
    else if |b| == 2 then Trio(b[0], b[1])
    else Quad(b[0], b[1], b[2]) + EncodeDigits(b[3..])
  }

  /** The padding of the final quantum: "==" after a lone byte, "=" after two bytes. */
  function Padding(n: nat): string {
    if n % 3 == 1 then "==" else if n % 3 == 2 then "=" else ""
  }

  /** Base 64 encoding of `b` (RFC 4648, section 4). */
  function Encode(b: seq<Byte>): string {
    EncodeDigits(b) + Padding(|b|)
  }

  /** The binary string whose char codes are the bytes `b` (`String.fromCharCode` per byte). */
  function BinaryString(b: seq<Byte>): (s: string)
    ensures |s| == |b|
    ensures forall i :: 0 <= i < |b| ==> s[i] as int == b[i]
  {
    seq(|b|, i requires 0 <= i < |b| => b[i] as char)
  }

  predicate IsBinaryString(s: string) {
    forall i :: 0 <= i < |s| ==> s[i] as int < 256
  }

  /** The bytes given by the char codes of a binary string (`charCodeAt` per position). */
  function CharCodes(s: string): (b: seq<Byte>)
    requires IsBinaryString(s)
    ensures |b| == |s|
    ensures forall i :: 0 <= i < |s| ==> b[i] == s[i] as int
  {
    seq(|s|, i requires 0 <= i < |s| => s[i] as int)
  }

  /** `btoa(s)`: `None` stands for the exception it throws on a char code above 255. */
  function Btoa(s: string): Option<string> {
    if IsBinaryString(s) then Some(Encode(CharCodes(s))) else None
  }

  /** The ASCII white space the HTML standard's forgiving decoder removes first. */
  predicate IsAsciiWhitespace(c: char) {
    c == '\t' || c == '\n' || c == '\U{C}' || c == '\r' || c == ' '
  }

  function StripWhitespace(s: string): (r: string)
    ensures forall i :: 0 <= i < |r| ==> !IsAsciiWhitespace(r[i])
    decreases |s|
  {
    if |s| == 0 then []
    else (if IsAsciiWhitespace(s[0]) then [] else [s[0]]) + StripWhitespace(s[1..])
  }

  /** Removes one or two trailing '='. */
  function StripPadding(s: string): string {
    if |s| >= 2 && s[|s| - 2] == '=' && s[|s| - 1] == '=' then s[..|s| - 2]
    else if |s| >= 1 && s[|s| - 1] == '=' then s[..|s| - 1]
    else s
  }

  /** Decodes unpadded digits; a final group of 2 or 3 digits yields 1 or 2 bytes, extra bits dropped. */
  function DecodeDigits(u: string): (b: seq<Byte>)
    requires AllAlphabet(u) && |u| % 4 != 1
    decreases |u|
  {
    if |u| == 0 then []
    else if |u| == 2 then [ValueOf(u[0]) * 4 + ValueOf(u[1]) / 16]
    else if |u| == 3 then
      [ValueOf(u[0]) * 4 + ValueOf(u[1]) / 16, (ValueOf(u[1]) % 16) * 16 + ValueOf(u[2]) / 4]
    else
      [ValueOf(u[0]) * 4 + ValueOf(u[1]) / 16, (ValueOf(u[1]) % 16) * 16 + ValueOf(u[2]) / 4,
       (ValueOf(u[2]) % 4) * 64 + ValueOf(u[3])]
      + DecodeDigits(u[4..])
  }

  /** Forgiving base 64 decode (HTML standard); `None` is its failure. */
  function ForgivingDecode(s: string): Option<seq<Byte>> {
    var t := StripWhitespace(s);
    var u := if |t| % 4 == 0 then StripPadding(t) else t;
    if |u| % 4 == 1 || !AllAlphabet(u) then None else Some(DecodeDigits(u))
  }

  /** `atob(s)`: `None` stands for the exception it throws on input that is not base 64. */
  function Atob(s: string): (r: Option<string>)
    ensures r.Some? ==> IsBinaryString(r.value)
  {
    match ForgivingDecode(s)
    case None => None
    case Some(b) => Some(BinaryString(b))
  }

  lemma {:induction false} EncodeDigitsLength(b: seq<Byte>)
    ensures |EncodeDigits(b)| == 4 * (|b| / 3) + (if |b| % 3 == 0 then 0 else |b| % 3 + 1)
    decreases |b|
  {
    if |b| >= 3 {
      EncodeDigitsLength(b[3..]);
    }
  }

  /** An encoding is 4 characters per started group of 3 bytes. */
  lemma EncodeLength(b: seq<Byte>)
    ensures |Encode(b)| == 4 * ((|b| + 2) / 3)
  {
    EncodeDigitsLength(b);
    var n := |b|;
    var q, r := n / 3, n % 3;
    assert n == 3 * q + r;
    assert |Encode(b)| == 4 * q + (if r == 0 then 0 else 4);
    assert (n + 2) / 3 == q + (if r == 0 then 0 else 1);
  }

  /** Regrouping the four 6-bit digits of three bytes gives the bytes back. */
  lemma QuadRegroups(x: Byte, y: Byte, z: Byte)
    ensures (x / 4) * 4 + ((x % 4) * 16 + y / 16) / 16 == x
    ensures (((x % 4) * 16 + y / 16) % 16) * 16 + ((y % 16) * 4 + z / 64) / 4 == y
    ensures (((y % 16) * 4 + z / 64) % 4) * 64 + z % 64 == z
  {
  }

  /** Four digits in front of `rest` decode to three bytes in front of the decoding of `rest`. */
  lemma DecodeGroup(a0: int, a1: int, a2: int, a3: int, x: Byte, y: Byte, z: Byte, rest: string)
    requires 0 <= a0 < 64 && 0 <= a1 < 64 && 0 <= a2 < 64 && 0 <= a3 < 64
    requires x == a0 * 4 + a1 / 16 && y == (a1 % 16) * 16 + a2 / 4 && z == (a2 % 4) * 64 + a3
    requires AllAlphabet(rest) && |rest| % 4 != 1
    ensures var u := [CharOf(a0), CharOf(a1), CharOf(a2), CharOf(a3)] + rest;
      AllAlphabet(u) && |u| % 4 != 1 && DecodeDigits(u) == [x, y, z] + DecodeDigits(rest)
  {
    var u := [CharOf(a0), CharOf(a1), CharOf(a2), CharOf(a3)] + rest;
    ValueOfCharOf(a0); ValueOfCharOf(a1); ValueOfCharOf(a2); ValueOfCharOf(a3);
    assert u[4..] == rest;
  }

  lemma DecodeQuad(x: Byte, y: Byte, z: Byte, rest: string)
    requires AllAlphabet(rest) && |rest| % 4 != 1
    ensures AllAlphabet(Quad(x, y, z) + rest) && |Quad(x, y, z) + rest| % 4 != 1
    ensures DecodeDigits(Quad(x, y, z) + rest) == [x, y, z] + DecodeDigits(rest)
  {
    var a0, a1, a2, a3 := x / 4, (x % 4) * 16 + y / 16, (y % 16) * 4 + z / 64, z % 64;
    assert Quad(x, y, z) == [CharOf(a0), CharOf(a1), CharOf(a2), CharOf(a3)];
    QuadRegroups(x, y, z);
    DecodeGroup(a0, a1, a2, a3, x, y, z, rest);
  }

  lemma DecodeTrio(x: Byte, y: Byte)
    ensures DecodeDigits(Trio(x, y)) == [x, y]
  {
    var u := Trio(x, y);
    ValueOfCharOf(x / 4); ValueOfCharOf((x % 4) * 16 + y / 16); ValueOfCharOf((y % 16) * 4);
    assert ValueOf(u[0]) == x / 4;
    assert ValueOf(u[1]) == (x % 4) * 16 + y / 16;
    assert ValueOf(u[2]) == (y % 16) * 4;
  }

  lemma DecodeDuo(x: Byte)
    ensures DecodeDigits(Duo(x)) == [x]
  {
    var u := Duo(x);
    ValueOfCharOf(x / 4); ValueOfCharOf((x % 4) * 16);
    assert ValueOf(u[0]) == x / 4;
    assert ValueOf(u[1]) == (x % 4) * 16;
  }

  lemma DecodeEncodeShort(b: seq<Byte>)
    requires |b| <= 2
    ensures |EncodeDigits(b)| % 4 != 1
    ensures DecodeDigits(EncodeDigits(b)) == b
  {
    if |b| == 1 {
      DecodeDuo(b[0]);
    } else if |b| == 2 {
      DecodeTrio(b[0], b[1]);
    }
  }

  lemma {:induction false} DecodeEncodeDigits(b: seq<Byte>)
    ensures |EncodeDigits(b)| % 4 != 1
    ensures DecodeDigits(EncodeDigits(b)) == b
    decreases |b|
  {
    if |b| <= 2 {
      DecodeEncodeShort(b);
    } else {
      DecodeEncodeDigits(b[3..]);
      DecodeQuad(b[0], b[1], b[2], EncodeDigits(b[3..]));
      assert EncodeDigits(b) == Quad(b[0], b[1], b[2]) + EncodeDigits(b[3..]);
      assert b == [b[0], b[1], b[2]] + b[3..];
    }
  }

  lemma StripWhitespaceNoop(s: string)
    requires forall i :: 0 <= i < |s| ==> !IsAsciiWhitespace(s[i])
    ensures StripWhitespace(s) == s
    decreases |s|
  {
    if |s| > 0 {
      StripWhitespaceNoop(s[1..]);
      assert s == [s[0]] + s[1..];
    }
  }

  lemma StripPaddingEncode(b: seq<Byte>)
    ensures StripPadding(Encode(b)) == EncodeDigits(b)
  {
    var d := EncodeDigits(b);
    var e := Encode(b);
    if |d| > 0 {
      assert e[|d| - 1] == d[|d| - 1];
      assert d[|d| - 1] != '=';
    }
    if |b| % 3 == 1 {
      assert e == d + "==";
      assert e[..|e| - 2] == d;
    } else if |b| % 3 == 2 {
      assert e == d + "=";
      assert e[..|e| - 1] == d;
    } else {
      assert e == d;
    }
  }

  lemma EncodeHasNoWhitespace(b: seq<Byte>)
    ensures StripWhitespace(Encode(b)) == Encode(b)
  {
    var d := EncodeDigits(b);
    var e := Encode(b);
    forall i | 0 <= i < |e| ensures !IsAsciiWhitespace(e[i]) {
      if i < |d| { assert e[i] == d[i]; }
    }
    StripWhitespaceNoop(e);
  }

  /** Decoding an encoding gives back the bytes. */
  lemma DecodeEncode(b: seq<Byte>)
    ensures ForgivingDecode(Encode(b)) == Some(b)
  {
    var e := Encode(b);
    EncodeLength(b);
    EncodeHasNoWhitespace(b);
    assert |e| % 4 == 0;
    StripPaddingEncode(b);
    var d := EncodeDigits(b);
    DecodeEncodeDigits(b);
    assert AllAlphabet(d) && |d| % 4 != 1;
    assert ForgivingDecode(e) == Some(DecodeDigits(d));
  }

  /** `atob(btoa(s)) == s` for every binary string. */
  lemma AtobBtoa(s: string)
    requires IsBinaryString(s)
    ensures Btoa(s).Some? && Atob(Btoa(s).value) == Some(s)
  {
    DecodeEncode(CharCodes(s));
    assert BinaryString(CharCodes(s)) == s;
  }
}
