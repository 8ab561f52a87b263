/** The multipart body of a file upload, and a reader that takes the content
    back out of it by its framing alone. */
module Multipart {
  import opened Basics

  type Bytes = seq<byte>

  const CR: byte := 13
  const LF: byte := 10
  const QUOTE: byte := 34
  const CRLF: Bytes := [CR, LF]
  const DASHES: Bytes := [45, 45]

  // Text and its UTF-8 bytes.

  function Utf8Char(c: char): (b: Bytes)
    ensures b != []
  {
    var n := c as int;
    if n < 0x80 then [n]
    else if n < 0x800 then [0xC0 + n / 0x40, 0x80 + n % 0x40]
    else if n < 0x1_0000 then [0xE0 + n / 0x1000, 0x80 + n / 0x40 % 0x40, 0x80 + n % 0x40]
    else [0xF0 + n / 0x4_0000, 0x80 + n / 0x1000 % 0x40, 0x80 + n / 0x40 % 0x40, 0x80 + n % 0x40]
  }

  function Utf8(text: string): Bytes {
    if text == "" then [] else Utf8Char(text[0]) + Utf8(text[1..])
  }

  /** A character of ASCII stands in the bytes exactly when it stands in the
      text: longer encodings use no ASCII byte. */
  lemma {:induction false} AsciiInUtf8(text: string, c: char)
    requires c as int < 0x80
    ensures c as int in Utf8(text) <==> c in text
  {
    if text != "" {
      AsciiInUtf8(text[1..], c);
      assert text == [text[0]] + text[1..];
      assert c as int in Utf8Char(text[0]) <==> c == text[0];
    }
  }

  /** The number that `n` more bytes carry, six bits each, behind a beginning. */
  function SixBitsMore(begun: int, more: Bytes): int
    decreases more
  {
    if more == [] then begun else SixBitsMore(begun * 0x40 + (more[0] as int - 0x80), more[1..])
  }

  /** How many bytes a first byte announces, as section 3 of RFC 3629 has it. */
  function Announced(first: byte): nat {
    if first < 0x80 then 1 else if first < 0xE0 then 2 else if first < 0xF0 then 3 else 4
  }

  function Beginning(first: byte): int {
    first as int - (match Announced(first) case 1 => 0 case 2 => 0xC0 case 3 => 0xE0 case _ => 0xF0)
  }

  /** The bytes tell the character: the first how many there are, and all of them
      its number. */
  lemma Utf8TellsTheCharacter(c: char)
    ensures var b := Utf8Char(c);
            && |b| == Announced(b[0]) && (forall i :: 0 < i < |b| ==> 0x80 <= b[i] < 0xC0)
            && SixBitsMore(Beginning(b[0]), b[1..]) == c as int
  {
    var n := c as int;
    var b := Utf8Char(c);
    var more := b[1..];
    var a := n / 0x40;
    assert n / 0x1000 == a / 0x40 && n / 0x4_0000 == a / 0x40 / 0x40;
    if |more| >= 1 {
      SixBitsUnfold(Beginning(b[0]), more);
    }
    if |more| >= 2 {
      SixBitsUnfold(Beginning(b[0]) * 0x40 + (more[0] as int - 0x80), more[1..]);
    }
    if |more| >= 3 {
      SixBitsUnfold((Beginning(b[0]) * 0x40 + (more[0] as int - 0x80)) * 0x40 + (more[1] as int - 0x80), more[2..]);
    }
  }

  lemma SixBitsUnfold(begun: int, more: Bytes)
    requires more != []
    ensures SixBitsMore(begun, more) == SixBitsMore(begun * 0x40 + (more[0] as int - 0x80), more[1..])
    ensures |more| == 1 ==> SixBitsMore(begun, more) == begun * 0x40 + (more[0] as int - 0x80)
    ensures |more| >= 2 ==> more[1..][1..] == more[2..]
  {
  }

  // The file name.

  predicate IsWhitespace(c: char) {
    var n := c as int;
    9 <= n <= 13 || n in {0x20, 0x85, 0xA0, 0x1680, 0x2028, 0x2029, 0x202F, 0x205F, 0x3000} || 0x2000 <= n <= 0x200A
  }

  predicate Unsafe(c: char) {
    c == '\"' || c == '\r' || c == '\n' || c == '\\'
  }

  function Replaced(name: string): (r: string)
    ensures |r| == |name|
    ensures forall i :: 0 <= i < |r| ==> r[i] == if Unsafe(name[i]) then '_' else name[i]
  {
    if name == "" then "" else [if Unsafe(name[0]) then '_' else name[0]] + Replaced(name[1..])
  }

  function TrimmedStart(text: string): (r: string)
    ensures |r| <= |text| && r == text[|text| - |r|..]
    ensures forall i :: 0 <= i < |text| - |r| ==> IsWhitespace(text[i])
    ensures r != "" ==> !IsWhitespace(r[0])
  {
    if text != "" && IsWhitespace(text[0]) then TrimmedStart(text[1..]) else text
  }

  function TrimmedEnd(text: string): (r: string)
    ensures r <= text
    ensures forall i :: |r| <= i < |text| ==> IsWhitespace(text[i])
    ensures r != "" ==> !IsWhitespace(r[|r| - 1])
  {
    if text != "" && IsWhitespace(text[|text| - 1]) then TrimmedEnd(text[..|text| - 1]) else text
  }

  function SafeFilename(filename: string): string {
    TrimmedEnd(TrimmedStart(Replaced(filename)))
  }

  predicate Clean(text: string) {
    forall i :: 0 <= i < |text| ==> !Unsafe(text[i])
  }

  predicate Trimmed(text: string) {
    text != "" ==> !IsWhitespace(text[0]) && !IsWhitespace(text[|text| - 1])
  }

  /** Characters with white space around them. */
  ghost predicate Surrounded(text: string, cut: nat, inner: string) {
    && cut + |inner| <= |text| && text[cut..cut + |inner|] == inner
    && (forall i :: 0 <= i < cut ==> IsWhitespace(text[i]))
    && (forall i :: cut + |inner| <= i < |text| ==> IsWhitespace(text[i]))
  }

  lemma TrimmingCutsTheEnds(text: string)
    ensures var safe := TrimmedEnd(TrimmedStart(text));
            Trimmed(safe) && Surrounded(text, |text| - |TrimmedStart(text)|, safe)
  {
    hide TrimmedStart, TrimmedEnd, IsWhitespace;
    var started := TrimmedStart(text);
    var safe := TrimmedEnd(started);
    var cut := |text| - |started|;
    assert safe == started[..|safe|] == text[cut..cut + |safe|];
    forall i | cut + |safe| <= i < |text|
      ensures IsWhitespace(text[i])
    {
      assert text[i] == started[i - cut];
    }
  }

  lemma InnerIsClean(text: string, cut: nat, inner: string)
    requires Clean(text) && Surrounded(text, cut, inner)
    ensures Clean(inner)
  {
    hide IsWhitespace, Unsafe;
    forall i | 0 <= i < |inner|
      ensures !Unsafe(inner[i])
    {
      assert inner[i] == text[cut..cut + |inner|][i] == text[cut + i];
    }
  }

  lemma ReplacedIsClean(filename: string)
    ensures Clean(Replaced(filename))
  {
  }

  /** The name is what stands between the white space at the ends, once each
      unsafe character has given way to one underscore. */
  lemma SafeFilenameIsClean(filename: string)
    ensures Clean(SafeFilename(filename)) && Trimmed(SafeFilename(filename))
    ensures exists cut: nat :: Surrounded(Replaced(filename), cut, SafeFilename(filename))
  {
    hide Clean, Trimmed, Surrounded, Replaced, IsWhitespace;
    ReplacedIsClean(filename);
    TrimmingCutsTheEnds(Replaced(filename));
    var cut := |Replaced(filename)| - |TrimmedStart(Replaced(filename))|;
    assert Surrounded(Replaced(filename), cut, SafeFilename(filename));
    InnerIsClean(Replaced(filename), cut, SafeFilename(filename));
  }

  lemma CleanNamesAreKept(name: string)
    requires Clean(name) && Trimmed(name)
    ensures SafeFilename(name) == name
  {
    hide IsWhitespace;
    assert Replaced(name) == name;
  }

  /** A name that needs no change gets none; so sanitising twice is sanitising
      once. */
  lemma SafeNamesAreKept(filename: string)
    ensures SafeFilename(filename) == filename <==> Clean(filename) && Trimmed(filename)
    ensures SafeFilename(SafeFilename(filename)) == SafeFilename(filename)
  {
    hide SafeFilename;
    SafeFilenameIsClean(filename);
    CleanNamesAreKept(SafeFilename(filename));
    if Clean(filename) && Trimmed(filename) {
      CleanNamesAreKept(filename);
    }
  }

  // The boundary: a fixed prefix and twelve digest bytes in hexadecimal.

  function HexDigit(n: nat): byte
    requires n < 16
  {
    if n < 10 then 48 + n else 87 + n
  }

  function Hex(digest: Bytes): Bytes {
    if digest == [] then [] else [HexDigit(digest[0] / 16), HexDigit(digest[0] % 16)] + Hex(digest[1..])
  }

  const PREFIX: Bytes := [45, 45, 45, 45, 100, 111, 118, 101, 116, 97, 105, 108, 45]

  function BoundaryFor(digest: Bytes): Bytes
    requires |digest| >= 12
  {
    PREFIX + Hex(digest[..12])
  }

  lemma {:induction false} HexIsPlain(digest: Bytes)
    ensures |Hex(digest)| == 2 * |digest| && OneLine(Hex(digest))
  {
    if digest != [] {
      HexIsPlain(digest[1..]);
    }
  }

  /** Any digest gives a boundary that a header line can carry, within the
      seventy characters section 5.1.1 of RFC 2046 allows. */
  lemma BoundaryFitsItsHeader(digest: Bytes)
    requires |digest| >= 12
    ensures OneLine(BoundaryFor(digest)) && |BoundaryFor(digest)| <= 70
  {
    HexIsPlain(digest[..12]);
  }

  function Unhex(digit: byte): int {
    if digit < 58 then digit - 48 else digit - 87
  }

  lemma {:induction false} HexTellsTheDigest(a: Bytes, b: Bytes)
    requires |a| == |b|
    ensures Hex(a) == Hex(b) <==> a == b
  {
    if a != [] {
      var x, y := Hex(a), Hex(b);
      HexTellsTheDigest(a[1..], b[1..]);
      assert x[2..] == Hex(a[1..]) && y[2..] == Hex(b[1..]);
      assert a == [a[0]] + a[1..] && b == [b[0]] + b[1..];
      DigitsTellTheByte(a[0]);
      DigitsTellTheByte(b[0]);
      assert x == x[..2] + x[2..] && y == y[..2] + y[2..];
    }
  }

  lemma DigitsTellTheByte(x: byte)
    ensures Unhex(HexDigit(x / 16)) * 16 + Unhex(HexDigit(x % 16)) == x
    ensures forall d :: d in [HexDigit(x / 16), HexDigit(x % 16)] ==> 48 <= d <= 57 || 97 <= d <= 102
  {
  }

  /** Two digests give one boundary exactly when they agree in their first twelve
      bytes. */
  lemma BoundaryTellsTheDigest(a: Bytes, b: Bytes)
    requires |a| >= 12 && |b| >= 12
    ensures BoundaryFor(a) == BoundaryFor(b) <==> a[..12] == b[..12]
    ensures |BoundaryFor(a)| == 37 && BoundaryFor(a)[..4] == [45, 45, 45, 45]
  {
    HexIsPlain(a[..12]);
    HexTellsTheDigest(a[..12], b[..12]);
    assert BoundaryFor(a)[13..] == Hex(a[..12]) && BoundaryFor(b)[13..] == Hex(b[..12]);
  }

  // The body.

  const PARAMETERS: string := "; name=\"file\"; filename=\""

  /** The disposition and its parameters, up to the file name. */
  const DISPOSITION: string := "Content-Disposition: form-data" + PARAMETERS

  /** The header lines, without their line ends. */
  function Header(boundary: Bytes, filename: string, contentType: Bytes): (h: seq<Bytes>)
    ensures |h| == 3
  {
    [DASHES + boundary,
     Utf8(DISPOSITION) + Utf8(SafeFilename(filename)) + [QUOTE],
     Utf8("Content-Type: ") + contentType]
  }

  function Lines(lines: seq<Bytes>): Bytes {
    if lines == [] then [] else lines[0] + CRLF + Lines(lines[1..])
  }

  function Delimiter(boundary: Bytes): Bytes {
    CRLF + DASHES + boundary
  }

  function Body(boundary: Bytes, filename: string, contentType: Bytes, content: Bytes): Bytes {
    Lines(Header(boundary, filename, contentType)) + CRLF + content + Delimiter(boundary) + DASHES + CRLF
  }

  method MultipartBody(boundary: Bytes, filename: string, contentType: Bytes, content: Bytes) returns (body: Bytes)
    ensures body == Body(boundary, filename, contentType, content)
  {
    hide Utf8, SafeFilename;
    body := [];
    body := body + (DASHES + boundary + CRLF);
    body := body + (Utf8(DISPOSITION) + Utf8(SafeFilename(filename)) + [QUOTE] + CRLF);
    body := body + (Utf8("Content-Type: ") + contentType + CRLF + CRLF);
    LinesOfThree(DASHES + boundary, Utf8(DISPOSITION) + Utf8(SafeFilename(filename)) + [QUOTE],
                 Utf8("Content-Type: ") + contentType);
    assert body == Lines(Header(boundary, filename, contentType)) + CRLF;
    body := body + content;
    body := body + (CRLF + DASHES + boundary + DASHES + CRLF);
  }

  lemma LinesOfThree(a: Bytes, b: Bytes, c: Bytes)
    ensures Lines([a, b, c]) == a + CRLF + (b + CRLF + (c + CRLF))
  {
    assert [a, b, c][1..] == [b, c] && [b, c][1..] == [c] && [c][1..] == [];
    assert Lines([c]) == c + CRLF;
    assert Lines([b, c]) == b + CRLF + Lines([c]);
  }

  // The reader.

  predicate OccursAt(pattern: Bytes, text: Bytes, at: nat) {
    at + |pattern| <= |text| && text[at..at + |pattern|] == pattern
  }

  predicate Occurs(pattern: Bytes, text: Bytes) {
    exists at: nat :: at <= |text| && OccursAt(pattern, text, at)
  }

  /** Where a pattern first occurs at or after a position. */
  function FirstFrom(pattern: Bytes, text: Bytes, from: nat): (r: Option<nat>)
    ensures r.Some? ==> from <= r.value && OccursAt(pattern, text, r.value)
    ensures r.Some? ==> forall at: nat :: from <= at < r.value ==> !OccursAt(pattern, text, at)
    ensures r.None? ==> forall at: nat :: from <= at ==> !OccursAt(pattern, text, at)
    decreases |text| - from
  {
    if from + |pattern| > |text| then None
    else if OccursAt(pattern, text, from) then Some(from)
    else FirstFrom(pattern, text, from + 1)
  }

  const BLANK_LINE: Bytes := CRLF + CRLF

  /** What stands between the first blank line and the first delimiter after it. */
  function Extracted(boundary: Bytes, body: Bytes): Option<Bytes> {
    match FirstFrom(BLANK_LINE, body, 0)
    case None => None
    case Some(blank) =>
      var start := blank + |BLANK_LINE|;
      match FirstFrom(Delimiter(boundary), body, start) {
        case None => None
        case Some(end) => Some(body[start..end])
      }
  }

  predicate OneLine(bytes: Bytes) {
    CR !in bytes && LF !in bytes
  }

  // The header ends at its first blank line.

  ghost predicate HeaderLines(lines: seq<Bytes>) {
    forall i :: 0 <= i < |lines| ==> OneLine(lines[i]) && lines[i] != []
  }

  lemma Mismatch(pattern: Bytes, text: Bytes, at: nat, k: nat)
    requires k < |pattern| && at + |pattern| <= |text| && text[at + k] != pattern[k]
    ensures !OccursAt(pattern, text, at)
  {
    assert text[at..at + |pattern|][k] == text[at + k];
  }

  /** A pattern behind a prefix occurs where it occurs without it. */
  lemma Shifted(pattern: Bytes, before: Bytes, text: Bytes, at: nat)
    ensures OccursAt(pattern, before + text, |before| + at) <==> OccursAt(pattern, text, at)
  {
    if at + |pattern| <= |text| {
      assert (before + text)[|before| + at..|before| + at + |pattern|] == text[at..at + |pattern|];
    }
  }

  lemma Within(pattern: Bytes, text: Bytes, after: Bytes, at: nat)
    requires at + |pattern| <= |text|
    ensures OccursAt(pattern, text + after, at) <==> OccursAt(pattern, text, at)
  {
    assert (text + after)[at..at + |pattern|] == text[at..at + |pattern|];
  }

  /** No blank line starts inside the header lines, before the last line end. */
  lemma {:induction false} NoBlankLineBefore(lines: seq<Bytes>, rest: Bytes, at: nat)
    requires HeaderLines(lines) && lines != [] && at + 2 < |Lines(lines)|
    ensures !OccursAt(BLANK_LINE, Lines(lines) + CRLF + rest, at)
  {
    hide OccursAt;
    var all := Lines(lines) + CRLF + rest;
    var line, below := lines[0], Lines(lines[1..]);
    var tail := below + CRLF + rest;
    assert all == (line + CRLF) + tail;
    if at < |line| {
      assert all[at] == line[at] != CR;
      Mismatch(BLANK_LINE, all, at, 0);
    } else if at == |line| {
      assert all[at + 2] == tail[0] == lines[1][0] != CR;
      Mismatch(BLANK_LINE, all, at, 2);
    } else if at == |line| + 1 {
      assert all[at] == LF;
      Mismatch(BLANK_LINE, all, at, 0);
    } else {
      var k := at - |line + CRLF|;
      NoBlankLineBefore(lines[1..], rest, k);
      Shifted(BLANK_LINE, line + CRLF, tail, k);
    }
  }

  lemma {:induction false} LinesEndWithCrlf(lines: seq<Bytes>)
    requires lines != []
    ensures |Lines(lines)| >= 2 && Lines(lines)[|Lines(lines)| - 2..] == CRLF
  {
    if |lines| > 1 {
      LinesEndWithCrlf(lines[1..]);
      var below := Lines(lines[1..]);
      assert Lines(lines)[|Lines(lines)| - 2..] == below[|below| - 2..];
    } else {
      assert lines[1..] == [];
    }
  }

  lemma HeaderEndsAtTheBlankLine(lines: seq<Bytes>, rest: Bytes)
    requires HeaderLines(lines) && lines != []
    ensures FirstFrom(BLANK_LINE, Lines(lines) + CRLF + rest, 0) == Some(|Lines(lines)| - 2)
  {
    LinesEndWithCrlf(lines);
    var header := Lines(lines);
    var all := header + CRLF + rest;
    var at := |header| - 2;
    assert all[at..at + 4] == header[at..] + CRLF;
    assert OccursAt(BLANK_LINE, all, at);
    forall k: nat | k < at
      ensures !OccursAt(BLANK_LINE, all, k)
    {
      NoBlankLineBefore(lines, rest, k);
    }
  }

  // The content ends at the first delimiter.

  /** A delimiter cannot start inside the content and run into the real one: its
      only CR is its first byte. */
  lemma NoOverlap(boundary: Bytes, content: Bytes, tail: Bytes, at: nat)
    requires OneLine(boundary) && at < |content|
    ensures OccursAt(Delimiter(boundary), content + (Delimiter(boundary) + tail), at) <==>
            OccursAt(Delimiter(boundary), content, at)
  {
    hide OccursAt;
    var d := Delimiter(boundary);
    var all := content + (d + tail);
    if at + |d| <= |content| {
      Within(d, content, d + tail, at);
    } else {
      var k := |content| - at;
      assert all[at + k] == d[0] == CR;
      assert d[k] == (if k == 1 then LF else if k < 4 then 45 else boundary[k - 4]);
      Mismatch(d, all, at, k);
      TooLongToOccur(d, content, at);
    }
  }

  lemma TooLongToOccur(pattern: Bytes, text: Bytes, at: nat)
    requires at + |pattern| > |text|
    ensures !OccursAt(pattern, text, at)
  {
  }

  lemma ContentEndsAtTheDelimiter(boundary: Bytes, before: Bytes, content: Bytes, tail: Bytes)
    requires OneLine(boundary)
    ensures var all := before + (content + (Delimiter(boundary) + tail));
            var end := FirstFrom(Delimiter(boundary), all, |before|);
            && end.Some? && |before| <= end.value <= |before| + |content|
            && (end.value == |before| + |content| <==> !Occurs(Delimiter(boundary), content))
  {
    hide OccursAt, FirstFrom, Delimiter;
    var d := Delimiter(boundary);
    var rest := content + (d + tail);
    var all := before + rest;
    DelimiterIsThere(d, content, tail);
    Shifted(d, before, rest, |content|);
    assert OccursAt(d, all, |before| + |content|);
    var end := FirstFrom(d, all, |before|).value;
    if end < |before| + |content| {
      var at := end - |before|;
      Shifted(d, before, rest, at);
      NoOverlap(boundary, content, tail, at);
    }
    forall at: nat | at <= |content| && OccursAt(d, content, at)
      ensures end < |before| + |content|
    {
      EndIsTooLate(boundary, content, at);
      NoOverlap(boundary, content, tail, at);
      Shifted(d, before, rest, at);
    }
  }

  lemma EndIsTooLate(boundary: Bytes, content: Bytes, at: nat)
    requires OccursAt(Delimiter(boundary), content, at)
    ensures at < |content|
  {
  }

  lemma DelimiterIsThere(d: Bytes, content: Bytes, tail: Bytes)
    ensures OccursAt(d, content + (d + tail), |content|)
  {
    assert (content + (d + tail))[|content|..|content| + |d|] == d;
  }

  lemma FixedTextIsOneLine()
    ensures OneLine(Utf8(DISPOSITION)) && OneLine(Utf8("Content-Type: "))
  {
    hide Utf8;
    assert '\r' !in DISPOSITION && '\n' !in DISPOSITION;
    AsciiInUtf8(DISPOSITION, '\r');
    AsciiInUtf8(DISPOSITION, '\n');
    AsciiInUtf8("Content-Type: ", '\r');
    AsciiInUtf8("Content-Type: ", '\n');
  }

  lemma HeaderIsLines(boundary: Bytes, filename: string, contentType: Bytes)
    requires OneLine(boundary) && OneLine(contentType)
    ensures HeaderLines(Header(boundary, filename, contentType))
  {
    hide Utf8, SafeFilename;
    FixedTextIsOneLine();
    NameIsOneLine(filename);
    var name := Utf8(DISPOSITION) + Utf8(SafeFilename(filename));
    assert OneLine(name);
    assert OneLine(DASHES + boundary);
    assert OneLine(name + [QUOTE]);
    Utf8IsNotEmpty("Content-Type: ");
  }

  lemma Utf8IsNotEmpty(text: string)
    requires text != ""
    ensures Utf8(text) != []
  {
  }

  /** The file name reads back from its header line: it ends at the first quote
      after the opening one. */
  lemma NameReadsBack(boundary: Bytes, filename: string, contentType: Bytes)
    ensures var line := Header(boundary, filename, contentType)[1];
            var start := |Utf8(DISPOSITION)|;
            var name := Utf8(SafeFilename(filename));
            && FirstFrom([QUOTE], line, start) == Some(start + |name|)
            && line[start..start + |name|] == name
  {
    hide Utf8, SafeFilename;
    SafeFilenameIsClean(filename);
    AsciiInUtf8(SafeFilename(filename), '\"');
    var start, name := |Utf8(DISPOSITION)|, Utf8(SafeFilename(filename));
    var line := Header(boundary, filename, contentType)[1];
    assert QUOTE !in name;
    forall at: nat | start <= at < start + |name|
      ensures !OccursAt([QUOTE], line, at)
    {
      assert line[at] == name[at - start];
      Mismatch([QUOTE], line, at, 0);
    }
    assert OccursAt([QUOTE], line, start + |name|);
  }

  lemma NameIsOneLine(filename: string)
    ensures OneLine(Utf8(SafeFilename(filename)))
  {
    hide Utf8, SafeFilename;
    SafeFilenameIsClean(filename);
    AsciiInUtf8(SafeFilename(filename), '\r');
    AsciiInUtf8(SafeFilename(filename), '\n');
  }

  /** The first line of a text, up to its line end, and what follows it. */
  lemma FirstLineReads(line: Bytes, rest: Bytes)
    requires OneLine(line)
    ensures FirstFrom(CRLF, line + CRLF + rest, 0) == Some(|line|)
  {
    var text := line + CRLF + rest;
    assert text[|line|..|line| + 2] == CRLF;
    assert OccursAt(CRLF, text, |line|);
    forall k: nat | k < |line|
      ensures !OccursAt(CRLF, text, k)
    {
      assert text[k] == line[k];
      Mismatch(CRLF, text, k, 0);
    }
  }

  /** A reader that takes the first `n` lines off a text. */
  function LinesRead(text: Bytes, n: nat): Option<(seq<Bytes>, Bytes)> {
    if n == 0 then Some(([], text)) else
    match FirstFrom(CRLF, text, 0)
    case None => None
    case Some(end) =>
      match LinesRead(text[end + 2..], n - 1)
      case None => None
      case Some((lines, rest)) => Some(([text[..end]] + lines, rest))
  }

  lemma LinesReadUnfolds(text: Bytes, n: nat, end: nat)
    requires n > 0 && FirstFrom(CRLF, text, 0) == Some(end)
    ensures LinesRead(text, n) == match LinesRead(text[end + 2..], n - 1)
                                  case None => None
                                  case Some((lines, rest)) => Some(([text[..end]] + lines, rest))
  {
  }

  lemma {:induction false} LinesReadBack(lines: seq<Bytes>, rest: Bytes)
    requires HeaderLines(lines)
    ensures LinesRead(Lines(lines) + rest, |lines|) == Some((lines, rest))
  {
    hide FirstFrom, OccursAt;
    if lines == [] {
      assert Lines(lines) + rest == rest;
    } else {
      var text := Lines(lines) + rest;
      var below := Lines(lines[1..]) + rest;
      assert text == lines[0] + CRLF + below;
      FirstLineReads(lines[0], below);
      assert text[..|lines[0]|] == lines[0] && text[|lines[0]| + 2..] == below;
      LinesReadBack(lines[1..], rest);
      assert [lines[0]] + lines[1..] == lines;
      LinesReadUnfolds(text, |lines|, |lines[0]|);
    }
  }

  /** What the body says, line by line: the boundary behind two dashes, the
      disposition with the sanitised name in quotes, the content type, a blank
      line; and at the end the boundary again, between dashes. */
  lemma BodyReadsBack(boundary: Bytes, filename: string, contentType: Bytes, content: Bytes)
    requires OneLine(boundary) && OneLine(contentType)
    ensures var closing := CRLF + [45, 45] + boundary + [45, 45] + CRLF;
            LinesRead(Body(boundary, filename, contentType, content), 3) ==
            Some(([[45, 45] + boundary,
                   Utf8("Content-Disposition: form-data; name=\"file\"; filename=\"") + Utf8(SafeFilename(filename)) + [34],
                   Utf8("Content-Type: ") + contentType],
                  CRLF + content + closing))
  {
    hide Utf8, SafeFilename, LinesRead, Lines;
    var lines := Header(boundary, filename, contentType);
    var closing := CRLF + [45, 45] + boundary + [45, 45] + CRLF;
    HeaderIsLines(boundary, filename, contentType);
    LinesReadBack(lines, CRLF + content + closing);
    assert Body(boundary, filename, contentType, content) == Lines(lines) + (CRLF + content + closing);
    WholeDisposition();
  }

  lemma WholeDisposition()
    ensures DISPOSITION == "Content-Disposition: form-data; name=\"file\"; filename=\""
  {
  }

  /** Whatever the file name and the content, the reader gets the content back
      exactly when the delimiter does not occur in it. */
  lemma ContentRoundTrip(boundary: Bytes, filename: string, contentType: Bytes, content: Bytes)
    requires OneLine(boundary) && OneLine(contentType)
    ensures Extracted(boundary, Body(boundary, filename, contentType, content)) == Some(content) <==>
            !Occurs(Delimiter(boundary), content)
  {
    hide Header, Utf8, FirstFrom, Occurs, OccursAt, Delimiter;
    var lines := Header(boundary, filename, contentType);
    var before := Lines(lines) + CRLF;
    var rest := content + (Delimiter(boundary) + (DASHES + CRLF));
    var body := Body(boundary, filename, contentType, content);
    HeaderIsLines(boundary, filename, contentType);
    assert body == before + rest;
    HeaderEndsAtTheBlankLine(lines, rest);
    LinesEndWithCrlf(lines);
    ContentEndsAtTheDelimiter(boundary, before, content, DASHES + CRLF);
    var end := FirstFrom(Delimiter(boundary), body, |before|).value;
    assert |body[|before|..end]| == end - |before|;
    assert body[|before|..|before| + |content|] == content;
  }
}
