/**
 Percent-encoding of byte strings (section 2.2 of RFC 1738), its inverse, and the hexadecimal form of
 info hashes. A string is the sequence of its character codes.
 */
module HexCoding {
  import opened WireFormat

  const PERCENT: Byte := 37

  /** The characters that are not transported as they are. */
  predicate Reserved(b: Byte) {
    b <= 44 || b == 47 || 58 <= b <= 64 || 91 <= b <= 96 || (b >= 123 && b != 126)
  }

  /** A character as the signed type `char` compares it. */
  function Signed(b: Byte): int {
    if b < 128 then b else b - 256
  }

  function UpperDigit(v: nat): (c: Byte)
    requires v < 16
  {
    if v < 10 then 48 + v else 55 + v
  }

  function LowerDigit(v: nat): (c: Byte)
    requires v < 16
  {
    if v < 10 then 48 + v else 87 + v
  }

  /** The value of a hexadecimal digit, 16 for any other character. */
  function GetValueOfHexChar(c: Byte): (v: nat) {
    if 48 <= c <= 57 then c - 48
    else if 65 <= c <= 70 then c - 65 + 10
    else if 97 <= c <= 102 then c - 97 + 10
    else 16
  }

  lemma HexCharValue(c: Byte, v: nat)
    requires v < 16
    ensures GetValueOfHexChar(c) == v <==> c == UpperDigit(v) || c == LowerDigit(v)
  {
  }

  const UPPER_DIGITS := "0123456789ABCDEF"
  const LOWER_DIGITS := "0123456789abcdef"

  /** The digits as they are written. */
  lemma DigitsWritten(v: nat)
    requires v < 16
    ensures UpperDigit(v) == UPPER_DIGITS[v] as int && LowerDigit(v) == LOWER_DIGITS[v] as int
  {
  }

  /** Letters, digits, the hyphen, the full stop and the tilde are transported as they are, and nothing else. */
  lemma ReservedIff(b: Byte)
    ensures !Reserved(b) <==>
      var c := b as char;
      'a' <= c <= 'z' || 'A' <= c <= 'Z' || '0' <= c <= '9' || c == '-' || c == '.' || c == '~'
  {
  }

  function ToUpper(c: Byte): Byte {
    if 97 <= c <= 122 then c - 32 else c
  }

  function Upper(s: Bytes): (r: Bytes)
    ensures |r| == |s|
  {
    seq(|s|, i requires 0 <= i < |s| => ToUpper(s[i]))
  }

  const SMALL_LETTERS := "abcdefghijklmnopqrstuvwxyz"
  const CAPITALS := "ABCDEFGHIJKLMNOPQRSTUVWXYZ"

  /** Small letters become capitals, all other characters stay. */
  lemma UpperOf(c: Byte, i: nat)
    requires i < 26
    ensures c == SMALL_LETTERS[i] as int ==> ToUpper(c) == CAPITALS[i] as int
    ensures !('a' <= c as char <= 'z') ==> ToUpper(c) == c
  {
  }

  // ----- Escaping -----

  function EscapeByte(b: Byte): Bytes {
    if Reserved(b) then [PERCENT, UpperDigit(b / 16), UpperDigit(b % 16)] else [b]
  }

  function Escape(s: Bytes): Bytes {
    if s == [] then [] else EscapeByte(s[0]) + Escape(s[1..])
  }

  lemma {:induction false} EscapeAppend(a: Bytes, b: Bytes)
    ensures Escape(a + b) == Escape(a) + Escape(b)
  {
    hide EscapeByte;
    if a == [] {
      assert a + b == b;
    } else {
      assert (a + b)[1..] == a[1..] + b;
      EscapeAppend(a[1..], b);
    }
  }

  /** Byte by byte: itself, or a percent sign and two upper-case digits. */
  lemma EscapedAs(s: Bytes, b: Byte)
    ensures Escape(s + [b]) == Escape(s)
      + if Reserved(b) then [37, UPPER_DIGITS[b / 16] as int, UPPER_DIGITS[b % 16] as int] else [b]
    ensures Escape([]) == []
  {
    EscapeAppend(s, [b]);
    DigitsWritten(b / 16);
    DigitsWritten(b % 16);
    assert [b][1..] == [];
    assert Escape([b]) == EscapeByte(b) + Escape([]);
    hide Reserved, Escape;
  }

  lemma EscapeNext(s: Bytes, i: nat)
    requires i < |s|
    ensures Escape(s[..i + 1]) == Escape(s[..i]) + EscapeByte(s[i])
  {
    hide EscapeByte;
    assert s[..i + 1] == s[..i] + [s[i]];
    assert [s[i]][1..] == [];
    assert Escape([s[i]]) == EscapeByte(s[i]);
    EscapeAppend(s[..i], [s[i]]);
    hide Escape;
  }

  /** `EscapeHex` compares signed characters. */
  method EscapeHex(s: Bytes) returns (result: Bytes)
    ensures result == Escape(s)
  {
    result := [];
    var i := 0;
    while i < |s|
      invariant i <= |s| && result == Escape(s[..i])
    {
      EscapeNext(s, i);
      var c := Signed(s[i]);
      if c <= 44 || c == 47 || 58 <= c <= 64 || 91 <= c <= 96 || (c >= 123 && c != 126) {
        result := result + [PERCENT, UpperDigit(s[i] / 16), UpperDigit(s[i] % 16)];
      } else {
        result := result + [s[i]];
      }
      i := i + 1;
    }
    assert s[..|s|] == s;
  }

  /** The loop that encodes the info hash of a torrent compares unsigned bytes; it gives the same. */
  method EncodeInfoHash(sha: Bytes) returns (encoded: Bytes)
    ensures encoded == Escape(sha)
  {
    encoded := [];
    for i := 0 to |sha|
      invariant encoded == Escape(sha[..i])
    {
      EscapeNext(sha, i);
      var b := sha[i];
      if b <= 44 || b == 47 || 58 <= b <= 64 || 91 <= b <= 96 || (b >= 123 && b != 126) {
        encoded := encoded + [PERCENT, UpperDigit(b / 16), UpperDigit(b % 16)];
      } else if 97 <= b <= 127 || 48 <= b <= 57 || 65 <= b <= 90 {
        encoded := encoded + [b];
      } else {
        encoded := encoded + [b];
      }
    }
    assert sha[..|sha|] == sha;
  }

  // ----- Unescaping -----

  /** The value of two characters read as a number; `other` decides on pairs that are not two digits. */
  function PairValue(a: Byte, b: Byte, other: (Byte, Byte) -> Byte): Byte {
    var (x, y) := (GetValueOfHexChar(a), GetValueOfHexChar(b));
    if x < 16 && y < 16 then 16 * x + y else other(a, b)
  }

  /** What the string stands for; a string that ends within an escape stands for nothing. */
  function Unescape(s: Bytes, other: (Byte, Byte) -> Byte): Bytes {
    if Truncated(s) then [] else Unescaped(s, other)
  }

  predicate Truncated(s: Bytes) {
    if s == [] then false
    else if s[0] != PERCENT then Truncated(s[1..])
    else |s| < 3 || Truncated(s[3..])
  }

  function Unescaped(s: Bytes, other: (Byte, Byte) -> Byte): Bytes
    requires !Truncated(s)
  {
    if s == [] then []
    else if s[0] != PERCENT then [s[0]] + Unescaped(s[1..], other)
    else [PairValue(s[1], s[2], other)] + Unescaped(s[3..], other)
  }

  method UnescapeHex(s: Bytes, other: (Byte, Byte) -> Byte) returns (result: Bytes)
    ensures result == Unescape(s, other)
  {
    result := [];
    var i := 0;
    while i < |s|
      invariant i <= |s|
      invariant Truncated(s) == Truncated(s[i..])
      invariant !Truncated(s) ==> Unescaped(s, other) == result + Unescaped(s[i..], other)
    {
      assert s[i..][1..] == s[i + 1..];
      if s[i] == PERCENT {
        if i + 2 < |s| {
          assert s[i..][3..] == s[i + 3..];
          result := result + [PairValue(s[i + 1], s[i + 2], other)];
          i := i + 3;
        } else {
          return [];
        }
      } else {
        result := result + [s[i]];
        i := i + 1;
      }
    }
  }

  lemma EscapedByteUnescapes(b: Byte, t: Bytes, other: (Byte, Byte) -> Byte)
    ensures Truncated(EscapeByte(b) + t) == Truncated(t)
    ensures !Truncated(t) ==> Unescaped(EscapeByte(b) + t, other) == [b] + Unescaped(t, other)
  {
    var s := EscapeByte(b) + t;
    HexCharValue(UpperDigit(b / 16), b / 16);
    HexCharValue(UpperDigit(b % 16), b % 16);
    assert s[|EscapeByte(b)|..] == t;
  }

  /** Unescaping gives back every string that was escaped. */
  lemma {:induction false} UnescapeEscape(s: Bytes, other: (Byte, Byte) -> Byte)
    ensures !Truncated(Escape(s)) && Unescape(Escape(s), other) == s
  {
    hide EscapeByte, PairValue;
    if s != [] {
      UnescapeEscape(s[1..], other);
      EscapedByteUnescapes(s[0], Escape(s[1..]), other);
    }
  }

  /** An escaped string has none of the characters that structure a query. */
  lemma {:induction false} EscapeAvoids(s: Bytes, c: Byte)
    requires Reserved(c) && c != PERCENT
    ensures c !in Escape(s)
  {
    if s != [] {
      EscapeAvoids(s[1..], c);
    }
  }

  // ----- Info hashes -----

  /** The characters of a byte in hexadecimal as a stream prints an `int`: without leading zeroes. */
  function HexOf(c: int): Bytes
    requires -128 <= c < 128
  {
    if c < 0 then [102, 102, 102, 102, 102, 102] + [LowerDigit((c + 256) / 16), LowerDigit((c + 256) % 16)]
    else if c < 16 then [LowerDigit(c)]
    else [LowerDigit(c / 16), LowerDigit(c % 16)]
  }

  /** Reading at or behind the end of a string gives NUL. */
  function CharAt(s: Bytes, i: nat): Byte {
    if i < |s| then s[i] else 0
  }

  function Rest(s: Bytes, i: nat): Bytes {
    if i < |s| then s[i..] else []
  }

  function Decoded(s: Bytes): Bytes
    decreases |s|
  {
    if s == [] then []
    else if s[0] == PERCENT then [ToUpper(CharAt(s, 1)), ToUpper(CharAt(s, 2))] + Decoded(Rest(s, 3))
    else HexOf(Signed(s[0])) + Decoded(s[1..])
  }

  lemma DecodedStep(s: Bytes, i: nat)
    requires i < |s|
    ensures s[i] == PERCENT ==>
      Decoded(Rest(s, i)) == [ToUpper(CharAt(s, i + 1)), ToUpper(CharAt(s, i + 2))] + Decoded(Rest(s, i + 3))
    ensures s[i] != PERCENT ==> Decoded(Rest(s, i)) == HexOf(Signed(s[i])) + Decoded(Rest(s, i + 1))
  {
    hide HexOf, ToUpper;
    assert Rest(s, i)[1..] == Rest(s, i + 1);
    assert Rest(Rest(s, i), 3) == Rest(s, i + 3);
  }

  /** An escape gives its digits in upper case, any other visible character its value in lower case. */
  lemma DecodedAs(v: nat, b: Byte, t: Bytes)
    requires v < 256 && 32 <= b < 127 && b != PERCENT
    ensures Decoded([PERCENT, LowerDigit(v / 16), LowerDigit(v % 16)] + t) == [UpperDigit(v / 16), UpperDigit(v % 16)] + Decoded(t)
    ensures Decoded([PERCENT, UpperDigit(v / 16), UpperDigit(v % 16)] + t) == [UpperDigit(v / 16), UpperDigit(v % 16)] + Decoded(t)
    ensures Decoded([b] + t) == [LowerDigit(b / 16), LowerDigit(b % 16)] + Decoded(t)
  {
    DecodedEscape(LowerDigit(v / 16), LowerDigit(v % 16), t);
    DecodedEscape(UpperDigit(v / 16), UpperDigit(v % 16), t);
    assert ([b] + t)[1..] == t;
  }

  lemma DecodedEscape(x: Byte, y: Byte, t: Bytes)
    ensures Decoded([PERCENT, x, y] + t) == [ToUpper(x), ToUpper(y)] + Decoded(t)
  {
    assert Rest([PERCENT, x, y] + t, 3) == t;
  }

  method DecodeInfoHash(s: Bytes) returns (result: Bytes)
    ensures result == Decoded(s)
  {
    hide HexOf, ToUpper, Decoded, CharAt;
    result := [];
    NothingDecoded();
    var i := 0;
    while i < |s|
      invariant result + Decoded(Rest(s, i)) == Decoded(s)
    {
      DecodedStep(s, i);
      if s[i] == PERCENT {
        result := result + [ToUpper(CharAt(s, i + 1)), ToUpper(CharAt(s, i + 2))];
        i := i + 2;
      } else {
        result := result + HexOf(Signed(s[i]));
      }
      i := i + 1;
    }
  }

  /** Two upper-case digits for each byte. */
  function UpperHex(s: Bytes): (r: Bytes)
    ensures |r| == 2 * |s|
  {
    if s == [] then [] else [UpperDigit(s[0] / 16), UpperDigit(s[0] % 16)] + UpperHex(s[1..])
  }

  lemma UpperAppend(a: Bytes, b: Bytes)
    ensures Upper(a + b) == Upper(a) + Upper(b)
  {
  }

  lemma DecodedByte(b: Byte, t: Bytes)
    ensures Upper(Decoded(EscapeByte(b) + t)) == [UpperDigit(b / 16), UpperDigit(b % 16)] + Upper(Decoded(t))
  {
    var s := EscapeByte(b) + t;
    if Reserved(b) {
      assert Rest(s, 3) == t;
      UpperAppend([ToUpper(s[1]), ToUpper(s[2])], Decoded(t));
    } else {
      assert s[1..] == t;
      UpperAppend(HexOf(Signed(b)), Decoded(t));
    }
  }

  /** Decoding what was encoded gives the upper-case digits of the hash, whatever the hash. */
  lemma {:induction false} DecodeEncodedHash(sha: Bytes)
    ensures Upper(Decoded(Escape(sha))) == UpperHex(sha)
  {
    hide EscapeByte, Decoded, UpperDigit;
    if sha == [] {
      NothingDecoded();
    } else {
      DecodedByte(sha[0], Escape(sha[1..]));
      DecodeEncodedHash(sha[1..]);
    }
  }

  lemma NothingDecoded()
    ensures Decoded([]) == []
  {
  }

  /** Reading digits two by two; behind a last single one stands a NUL, which is no digit. */
  function Binary(h: Bytes): Bytes
    decreases |h|
  {
    if h == [] then []
    else [(GetValueOfHexChar(h[0]) * 16 + GetValueOfHexChar(CharAt(h, 1))) % 256] + Binary(Rest(h, 2))
  }

  lemma BinaryStep(h: Bytes, j: nat)
    requires j < |h|
    ensures Binary(Rest(h, j))
         == [(GetValueOfHexChar(h[j]) * 16 + GetValueOfHexChar(CharAt(h, j + 1))) % 256] + Binary(Rest(h, j + 2))
  {
    hide GetValueOfHexChar;
    assert Rest(Rest(h, j), 2) == Rest(h, j + 2);
  }

  lemma NothingBinary()
    ensures Binary([]) == []
  {
  }

  method BinaryInfoHash(h: Bytes) returns (b: Bytes)
    ensures b == Binary(h)
  {
    hide Binary, GetValueOfHexChar;
    NothingBinary();
    b := [];
    var j := 0;
    while j < |h|
      invariant b + Binary(Rest(h, j)) == Binary(h)
    {
      BinaryStep(h, j);
      var tmpVal := GetValueOfHexChar(h[j]) * 16;
      j := j + 1;
      tmpVal := (tmpVal + GetValueOfHexChar(CharAt(h, j))) % 256;
      b := b + [tmpVal];
      j := j + 1;
    }
  }

  /** The digits give the hash back, so different hashes have different digits. */
  lemma {:induction false} BinaryOfUpperHex(sha: Bytes)
    ensures Binary(UpperHex(sha)) == sha
  {
    if sha != [] {
      HexCharValue(UpperDigit(sha[0] / 16), sha[0] / 16);
      HexCharValue(UpperDigit(sha[0] % 16), sha[0] % 16);
      BinaryOfUpperHex(sha[1..]);
      assert Rest(UpperHex(sha), 2) == UpperHex(sha[1..]);
    }
  }
}
