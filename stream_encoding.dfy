/**
 * Guessing the text encoding of a file from its bytes: a byte-order mark decides
 * first (UTF-32 before UTF-16 before UTF-8, the signatures of table 2-4 in section
 * 2.6 of the Unicode Standard); without one, a stream of printable ASCII, TAB, CR and
 * LF is ASCII and anything else is UTF-8.
 */
module StreamEncoding {

  /** An unsigned 8-bit value, as System.Byte. */
  newtype byte = x: int | 0 <= x < 256

  /**
   * The Encoding objects the guess returns. Unicode is UTF-16; the big-endian marks
   * map to the same object as the little-endian ones.
   */
  datatype Encoding = Default | UTF32 | Unicode | UTF8 | ASCII

  /** EF BB BF. */
  predicate HasUtf8Preamble(s: seq<byte>) {
    |s| >= 3 && s[0] == 0xEF && s[1] == 0xBB && s[2] == 0xBF
  }

  /** FF FE (little endian) or FE FF (big endian). */
  predicate HasUtf16Preamble(s: seq<byte>) {
    |s| >= 2 && ((s[0] == 0xFF && s[1] == 0xFE) || (s[0] == 0xFE && s[1] == 0xFF))
  }

  /** FF FE 00 00 (little endian) or 00 00 FE FF (big endian). */
  predicate HasUtf32Preamble(s: seq<byte>) {
    |s| >= 4
    && ((s[0] == 0xFF && s[1] == 0xFE && s[2] == 0x00 && s[3] == 0x00)
        || (s[0] == 0x00 && s[1] == 0x00 && s[2] == 0xFE && s[3] == 0xFF))
  }

  /** TAB, CR, LF or a byte from 0x20 (space) up to 0x7E; 0x7F (DEL) and above are not text. */
  predicate IsTextByte(b: byte) {
    b == 0x09 || b == 0x0D || b == 0x0A || (0x20 <= b && b < 0x7F)
  }

  predicate AllText(s: seq<byte>) {
    forall i :: 0 <= i < |s| ==> IsTextByte(s[i])
  }

  /** The encoding GuessEncodingFor settles on. */
  function Guess(s: seq<byte>): Encoding {
    if |s| < 1 then Default
    else if HasUtf32Preamble(s) then UTF32
    else if HasUtf16Preamble(s) then Unicode
    else if HasUtf8Preamble(s) then UTF8
    else if AllText(s) then ASCII
    else UTF8
  }

  /** IsAsciiStream: reads byte by byte from the start and stops at the first byte that is not text. */
  method IsAsciiStream(s: seq<byte>) returns (r: bool)
    ensures r <==> AllText(s)
    ensures !r ==> exists i :: 0 <= i < |s| && !IsTextByte(s[i])
  {
    var position := 0;
    while true
      invariant 0 <= position <= |s|
      invariant forall i :: 0 <= i < position ==> IsTextByte(s[i])
      decreases |s| - position
    {
      if position == |s| {
        break;  // end of stream
      }
      var b := s[position];
      position := position + 1;
      if b == 0x09 || b == 0x0D || b == 0x0A {
        continue;
      }
      if b < 0x20 {
        return false;
      }
      if b >= 0x7F {
        return false;
      }
    }
    return true;
  }

  /** IsUtf8Stream: a UTF-8 mark, or any byte that is not text. */
  method IsUtf8Stream(s: seq<byte>) returns (r: bool)
    ensures r <==> HasUtf8Preamble(s) || !AllText(s)
  {
    if HasUtf8Preamble(s) {
      return true;
    }
    var position := 0;
    while true
      invariant 0 <= position <= |s|
      invariant forall i :: 0 <= i < position ==> IsTextByte(s[i])
      decreases |s| - position
    {
      if position == |s| {
        break;
      }
      var b := s[position];
      position := position + 1;
      if b == 0x09 || b == 0x0D || b == 0x0A {
        continue;
      }
      if b < 0x20 {
        return true;
      }
      if b >= 0x7F {
        return true;
      }
    }
    return false;
  }

  /** GuessEncodingFor: the marks first, then the ASCII scan. */
  method GuessEncodingFor(s: seq<byte>) returns (e: Encoding)
    ensures e == Guess(s)
  {
    if |s| < 1 {
      return Default;
    }
    if HasUtf32Preamble(s) {
      return UTF32;
    }
    if HasUtf16Preamble(s) {
      return Unicode;
    }
    if HasUtf8Preamble(s) {
      return UTF8;
    }
    var ascii := IsAsciiStream(s);
    if ascii {
      return ASCII;
    }
    return UTF8;
  }

  /** IsUnicodeStream: a UTF-32 or UTF-16 mark, or a stream IsUtf8Stream accepts. */
  method IsUnicodeStream(s: seq<byte>) returns (r: bool)
    ensures r <==> HasUtf32Preamble(s) || HasUtf16Preamble(s) || !AllText(s)
  {
    var utf8 := IsUtf8Stream(s);
    MarksAreNotText(s);
    r := HasUtf32Preamble(s) || HasUtf16Preamble(s) || utf8;
  }

  /** Every byte-order mark starts with a byte that is not text. */
  lemma MarksAreNotText(s: seq<byte>)
    ensures HasUtf8Preamble(s) || HasUtf16Preamble(s) || HasUtf32Preamble(s) ==> !AllText(s)
  {
    if |s| > 0 && (HasUtf8Preamble(s) || HasUtf16Preamble(s) || HasUtf32Preamble(s)) {
      assert !IsTextByte(s[0]);
    }
  }

  /** Without a UTF-8 mark, IsUtf8Stream and IsAsciiStream answer opposite ways. */
  method Utf8IsNotAscii(s: seq<byte>) returns (utf8: bool, ascii: bool)
    requires !HasUtf8Preamble(s)
    ensures utf8 == !ascii
  {
    utf8 := IsUtf8Stream(s);
    ascii := IsAsciiStream(s);
  }

  lemma EmptyIsDefault()
    ensures Guess([]) == Default
  {
  }

  /** FF FE 00 00 carries the UTF-16 mark too, but is UTF-32 because that test comes first. */
  lemma Utf32BeforeUtf16(rest: seq<byte>)
    ensures HasUtf16Preamble([0xFF, 0xFE, 0x00, 0x00] + rest)
    ensures Guess([0xFF, 0xFE, 0x00, 0x00] + rest) == UTF32
  {
  }

  /** Marks and their encodings; both byte orders give the same Encoding object. */
  lemma MarkedEncodings(rest: seq<byte>)
    ensures Guess([0x00, 0x00, 0xFE, 0xFF] + rest) == UTF32
    ensures Guess([0xFE, 0xFF] + rest) == Unicode
    ensures |rest| < 2 || rest[0] != 0x00 || rest[1] != 0x00 ==> Guess([0xFF, 0xFE] + rest) == Unicode
    ensures Guess([0xEF, 0xBB, 0xBF] + rest) == UTF8
  {
    var s := [0xFF, 0xFE] + rest;
    if |rest| >= 2 {
      assert s[2] == rest[0] && s[3] == rest[1];
    }
  }

  /** Without a mark, a stream is ASCII exactly when it is non-empty and all text; otherwise it is UTF-8. */
  lemma GuessIsAsciiIff(s: seq<byte>)
    ensures Guess(s) == ASCII <==> |s| > 0 && AllText(s)
    ensures |s| > 0 && !AllText(s) && !HasUtf32Preamble(s) && !HasUtf16Preamble(s) ==> Guess(s) == UTF8
  {
    MarksAreNotText(s);
  }

  /** A non-empty stream is never given the Default encoding. */
  lemma NonEmptyIsNotDefault(s: seq<byte>)
    requires |s| > 0
    ensures Guess(s) != Default
  {
  }
}
