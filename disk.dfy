/**
 * The files on disk, and ASCII line I/O: Encoding.ASCII turns every byte and
 * every character above 127 into '?', StreamWriter.WriteLine ends each line with the
 * platform's newline, and StreamReader.ReadLine ends a line at "\n", "\r" or "\r\n".
 */
module Disk {
  import opened Text
  import SE = StreamEncoding

  /** The files on disk, by full name. */
  class FileSystem {
    var files: map<string, seq<SE.byte>>

    constructor (files: map<string, seq<SE.byte>>)
      ensures this.files == files
    {
      this.files := files;
    }
  }

  /** Encoding.ASCII.GetString: bytes above 127 decode to '?'. */
  function AsciiDecode(b: seq<SE.byte>): (s: string)
    ensures |s| == |b|
    ensures forall i :: 0 <= i < |b| ==> s[i] == if b[i] < 0x80 then (b[i] as int) as char else '?'
  {
    seq(|b|, i requires 0 <= i < |b| => if b[i] < 0x80 then (b[i] as int) as char else '?')
  }

  /** The UTF-8 byte-order mark. */
  const Utf8Mark: seq<SE.byte> := [0xEF, 0xBB, 0xBF]

  /**
   * The text a StreamReader built with Encoding.ASCII reads from b: it first looks
   * for a byte-order mark, and a UTF-8 mark is skipped; bytes below 128 decode the
   * same in UTF-8 and in ASCII.
   */
  function ReaderText(b: seq<SE.byte>): string {
    if SE.HasUtf8Preamble(b) then AsciiDecode(b[3..]) else AsciiDecode(b)
  }

  /** A leading UTF-8 mark is not part of the text read. */
  lemma ReaderSkipsUtf8Mark(b: seq<SE.byte>)
    ensures ReaderText(Utf8Mark + b) == AsciiDecode(b)
  {
    assert (Utf8Mark + b)[3..] == b;
  }

  /** Bytes that do not open with a UTF-8 mark are read as plain ASCII. */
  lemma ReaderTextUnmarked(b: seq<SE.byte>)
    requires b == [] || b[0] != 0xEF
    ensures ReaderText(b) == AsciiDecode(b)
  {
  }

  /** Encoding.ASCII.GetBytes: characters above 127 encode as '?' (0x3F). */
  function AsciiEncode(s: string): (b: seq<SE.byte>)
    ensures |b| == |s|
    ensures forall i :: 0 <= i < |s| ==> b[i] == if s[i] as int < 128 then (s[i] as int) as SE.byte else 0x3F
  {
    seq(|s|, i requires 0 <= i < |s| => if s[i] as int < 128 then (s[i] as int) as SE.byte else 0x3F)
  }

  /** Reading back what was written in ASCII gives the text with its non-ASCII characters as '?'. */
  lemma AsciiRoundTrip(s: string)
    ensures AsciiDecode(AsciiEncode(s)) == ToAscii(s)
  {
  }

  /** Environment.NewLine. */
  datatype Newline = Lf | CrLf

  function NewlineText(nl: Newline): string {
    match nl
    case Lf => "\n"
    case CrLf => "\r\n"
  }

  predicate IsBreak(c: char) {
    c == '\n' || c == '\r'
  }

  /** A line that holds no line terminator. */
  predicate NoBreak(line: string) {
    forall i :: 0 <= i < |line| ==> !IsBreak(line[i])
  }

  /** Where the first line of t ends. */
  function LineEnd(t: string): (k: nat)
    ensures k <= |t|
    ensures NoBreak(t[..k])
    ensures k < |t| ==> IsBreak(t[k])
  {
    if t == [] || IsBreak(t[0]) then 0 else 1 + LineEnd(t[1..])
  }

  /** The lines ReadLine returns one after the other until the end of the stream. */
  function ReadLines(t: string): (lines: seq<string>)
    ensures forall j :: 0 <= j < |lines| ==> NoBreak(lines[j])
    decreases |t|
  {
    if t == [] then []
    else
      var k := LineEnd(t);
      if k == |t| then [t]
      else if t[k] == '\r' && k + 1 < |t| && t[k + 1] == '\n' then [t[..k]] + ReadLines(t[k + 2..])
      else [t[..k]] + ReadLines(t[k + 1..])
  }

  /** What one WriteLine per line puts in the stream. */
  function WriteLines(lines: seq<string>, nl: Newline): string {
    if lines == [] then [] else lines[0] + NewlineText(nl) + WriteLines(lines[1..], nl)
  }

  /** A line followed by a newline is the first line read back, whichever newline the platform uses. */
  lemma ReadLinesCons(line: string, nl: Newline, rest: string)
    requires NoBreak(line)
    ensures ReadLines(line + NewlineText(nl) + rest) == [line] + ReadLines(rest)
  {
    var t := line + NewlineText(nl) + rest;
    var k := LineEnd(t);
    assert t[..|line|] == line;
    assert IsBreak(t[|line|]);
    assert k == |line|;
    if nl == Lf {
      assert t[k + 1..] == rest;
    } else {
      assert t[k] == '\r' && t[k + 1] == '\n';
      assert t[k + 2..] == rest;
    }
  }

  /** Reading back what WriteLine wrote gives the same lines, as long as none holds a terminator. */
  lemma {:induction false} ReadWrittenLines(lines: seq<string>, nl: Newline)
    requires forall j :: 0 <= j < |lines| ==> NoBreak(lines[j])
    ensures ReadLines(WriteLines(lines, nl)) == lines
  {
    if lines != [] {
      ReadLinesCons(lines[0], nl, WriteLines(lines[1..], nl));
      ReadWrittenLines(lines[1..], nl);
    }
  }

  /** A line with a terminator in it comes back as two lines. */
  lemma BrokenLineSplits(a: string, b: string)
    requires NoBreak(a) && NoBreak(b) && b != []
    ensures ReadLines(WriteLines([a + "\n" + b], Lf)) == [a, b]
  {
    var t := WriteLines([a + "\n" + b], Lf);
    assert WriteLines([a + "\n" + b][1..], Lf) == [];
    assert t == a + "\n" + (b + "\n");
    ReadLinesCons(a, Lf, b + "\n");
    assert b + "\n" == b + NewlineText(Lf) + [];
    ReadLinesCons(b, Lf, []);
  }
}
