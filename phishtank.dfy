/**
 * The PhishTank feed handler (abusehelper/contrib/phishtank/phishtankbot.py):
 * the XML-safe character filter, the reader that hands the decompressed dump to
 * the XML parser line by line, and the filter and per-URL dedup applied to each
 * parsed entry.
 */
module PhishTank {
  import opened Wrappers

  // ---------------------------------------------------------------------
  // Characters XML 1.0 does not allow

  /** A code point of a Python 2 `unicode` string, lone surrogates included. */
  newtype CodePoint = c: int | 0 <= c < 0x11_0000

  /** The class `_NON_XML` matches. */
  predicate NonXml(c: CodePoint)
  {
    c <= 0x08 || c == 0x0B || c == 0x0C || (0x0E <= c <= 0x1F)
    || (0xD800 <= c <= 0xDFFF) || c == 0xFFFE || c == 0xFFFF
  }

  const Replacement: CodePoint := 0xFFFD

  /** `_replace_non_xml_chars`: each match becomes U+FFFD, everything else stays. */
  function ReplaceNonXml(s: seq<CodePoint>): (r: seq<CodePoint>)
    ensures |r| == |s|
    ensures forall i :: 0 <= i < |s| ==> r[i] == (if NonXml(s[i]) then Replacement else s[i])
  {
    if s == [] then [] else [if NonXml(s[0]) then Replacement else s[0]] + ReplaceNonXml(s[1..])
  }

  /** The result has no character the pattern matches, so a second pass changes nothing. */
  lemma ReplaceNonXmlCleans(s: seq<CodePoint>)
    ensures forall i :: 0 <= i < |s| ==> !NonXml(ReplaceNonXml(s)[i])
    ensures ReplaceNonXml(ReplaceNonXml(s)) == ReplaceNonXml(s)
  {
    assert !NonXml(Replacement);
  }

  /** Text that is already XML-safe passes through unchanged. */
  lemma ReplaceNonXmlKeepsClean(s: seq<CodePoint>)
    requires forall i :: 0 <= i < |s| ==> !NonXml(s[i])
    ensures ReplaceNonXml(s) == s
  {
  }

  // ---------------------------------------------------------------------
  // Lines of a byte string

  newtype Byte = b: int | 0 <= b < 256

  type Bytes = seq<Byte>

  const LF: Byte := 10
  const CR: Byte := 13

  predicate IsBreak(b: Byte)
  {
    b == LF || b == CR
  }

  /** The length of the first line of `s`, its line break included: `\n`, `\r` or `\r\n`. */
  function LineLength(s: Bytes): (n: nat)
    ensures s != [] ==> 1 <= n <= |s|
    ensures s == [] ==> n == 0
  {
    if s == [] then 0
    else if s[0] == LF then 1
    else if s[0] == CR then (if |s| > 1 && s[1] == LF then 2 else 1)
    else 1 + LineLength(s[1..])
  }

  /** A line that ends with a line break. */
  predicate EndsLine(line: Bytes)
  {
    line != [] && IsBreak(line[|line| - 1])
  }

  /** `s.splitlines(True)` for a byte string. */
  function SplitLines(s: Bytes): (lines: seq<Bytes>)
    decreases |s|
  {
    if s == [] then [] else [s[..LineLength(s)]] + SplitLines(s[LineLength(s)..])
  }

  /** Joins lines back together. */
  function Flat(chunks: seq<Bytes>): (s: Bytes)
  {
    if chunks == [] then [] else chunks[0] + Flat(chunks[1..])
  }

  lemma {:induction false} FlatAppend(a: seq<Bytes>, b: seq<Bytes>)
    ensures Flat(a + b) == Flat(a) + Flat(b)
  {
    if a != [] {
      assert (a + b)[0] == a[0];
      assert (a + b)[1..] == a[1..] + b;
      FlatAppend(a[1..], b);
      calc {
        Flat(a + b);
        a[0] + Flat(a[1..] + b);
        a[0] + (Flat(a[1..]) + Flat(b));
        (a[0] + Flat(a[1..])) + Flat(b);
        Flat(a) + Flat(b);
      }
    } else {
      assert a + b == b;
    }
  }

  /** The first line of `s` ends with a break unless it is all of `s`. */
  lemma {:induction false} FirstLineEnds(s: Bytes)
    requires s != [] && LineLength(s) < |s|
    ensures EndsLine(s[..LineLength(s)])
    ensures s[LineLength(s) - 1] == CR ==> s[LineLength(s)] != LF
  {
    if s[0] != LF && s[0] != CR {
      FirstLineEnds(s[1..]);
      assert s[..LineLength(s)] == [s[0]] + s[1..][..LineLength(s[1..])];
    }
  }

  /** What the split promises: the lines join back, none is empty, all but the last end with a break, and `\r\n` stays together. */
  predicate Lines(lines: seq<Bytes>)
    decreases |lines|
  {
    lines == []
    || (lines[0] != []
        && (|lines| >= 2 ==> EndsLine(lines[0]) && !CrThenLf(lines[0], lines[1]))
        && Lines(lines[1..]))
  }

  /** A line ending in `\r` followed by one starting with `\n`: a split through a `\r\n`. */
  predicate CrThenLf(a: Bytes, b: Bytes)
  {
    a != [] && b != [] && a[|a| - 1] == CR && b[0] == LF
  }

  lemma {:induction false} SplitLinesFlat(s: Bytes)
    ensures Flat(SplitLines(s)) == s
    decreases |s|
  {
    if s != [] {
      var n := LineLength(s);
      SplitLinesFlat(s[n..]);
      var lines := [s[..n]] + SplitLines(s[n..]);
      assert lines[0] == s[..n] && lines[1..] == SplitLines(s[n..]);
      assert s == s[..n] + s[n..];
    }
  }

  /** The first line of the rest of a split starts where the split left off. */
  lemma SplitLinesHead(s: Bytes)
    requires s != []
    ensures SplitLines(s) != [] && SplitLines(s)[0] != [] && SplitLines(s)[0][0] == s[0]
  {
  }

  lemma {:induction false} SplitLinesJoins(s: Bytes)
    ensures Flat(SplitLines(s)) == s
    ensures Lines(SplitLines(s))
    ensures s != [] ==> |SplitLines(s)| >= 1
    decreases |s|
  {
    SplitLinesFlat(s);
    if s != [] {
      var n := LineLength(s);
      var rest := SplitLines(s[n..]);
      SplitLinesJoins(s[n..]);
      var lines := [s[..n]] + rest;
      if n < |s| {
        FirstLineEnds(s);
        SplitLinesHead(s[n..]);
      }
      LinesCons(s[..n], rest, n < |s|);
    }
  }

  /** Putting a line in front of lines keeps the split's promises when the line ends properly. */
  lemma LinesCons(first: Bytes, rest: seq<Bytes>, more: bool)
    requires first != [] && Lines(rest)
    requires more <==> rest != []
    requires more ==> EndsLine(first) && (first[|first| - 1] == CR ==> rest[0][0] != LF)
    ensures Lines([first] + rest)
  {
    assert ([first] + rest)[1..] == rest;
  }

  // ---------------------------------------------------------------------
  // The reader between the decompressor and the XML parser (`BZ2Reader`)

  /**
   * `_mangle_line`: decode the line (UTF-8, else Latin-1), replace what XML
   * does not allow, encode as UTF-8. The codecs are parameters of the model.
   */
  function Mangle(decode: Bytes -> seq<CodePoint>, encode: seq<CodePoint> -> Bytes, line: Bytes): Bytes
  {
    encode(ReplaceNonXml(decode(line)))
  }

  /** The mangled lines one after the other. */
  function Mangled(decode: Bytes -> seq<CodePoint>, encode: seq<CodePoint> -> Bytes, lines: seq<Bytes>): Bytes
    decreases |lines|
  {
    if lines == [] then []
    else Mangled(decode, encode, lines[..|lines| - 1]) + Mangle(decode, encode, lines[|lines| - 1])
  }

  function Min(a: int, b: int): int
  {
    if a <= b then a else b
  }

  lemma FlatOne(line: Bytes)
    ensures Flat([line]) == line
  {
    assert [line][1..] == [];
  }

  lemma FlatSnoc(lines: seq<Bytes>, line: Bytes)
    ensures Flat(lines + [line]) == Flat(lines) + line
  {
    FlatAppend(lines, [line]);
    FlatOne(line);
  }

  /** Splitting the buffered fragment and the new data keeps the bytes and the split's promises. */
  lemma Refill(last: Bytes, raw: Bytes)
    requires raw != []
    ensures Flat(SplitLines(last + raw)) == Flat([last]) + raw
    ensures Lines(SplitLines(last + raw)) && SplitLines(last + raw) != []
    ensures SplitLines(last + raw)[0] != []
    ensures last != [] ==> SplitLines(last + raw)[0][0] == last[0]
  {
    FlatOne(last);
    SplitLinesJoins(last + raw);
    SplitLinesHead(last + raw);
  }

  /** Taking the first of at least two split lines. */
  lemma PopLine(buffer: seq<Bytes>)
    requires |buffer| >= 2 && Lines(buffer)
    ensures EndsLine(buffer[0]) && buffer[1] != []
    ensures buffer[0][|buffer[0]| - 1] == CR ==> buffer[1][0] != LF
    ensures Flat(buffer) == buffer[0] + Flat(buffer[1..])
    ensures |buffer[1..]| >= 2 ==> Lines(buffer[1..])
  {
  }

  /**
   * The line reader's invariant, on values: the lines answered and what is left
   * make up the stream; the buffer is what a split leaves; every line answered
   * before the end ends with a break, and a `\r` ending one is not followed by `\n`.
   */
  ghost predicate LinesState(stream: Bytes, lines: seq<Bytes>, buffer: seq<Bytes>, source: seq<Bytes>)
  {
    Flat(lines) + (Flat(buffer) + Flat(source)) == stream
    && (buffer == [] ==> source == [])
    && (|buffer| >= 2 ==> Lines(buffer))
    && (forall i :: 0 <= i < |lines| ==> lines[i] != [])
    && (buffer != [] ==> forall i :: 0 <= i < |lines| ==> EndsLine(lines[i]))
    && (lines != [] && buffer != [] ==> buffer[0] != [])
    && (lines != [] && buffer != [] && lines[|lines| - 1][|lines[|lines| - 1]| - 1] == CR ==> buffer[0][0] != LF)
  }

  /** `_read_line`'s loop body: the fragment and the new data are split into the buffer. */
  lemma RefillState(stream: Bytes, lines: seq<Bytes>, last: Bytes, source: seq<Bytes>, raw: Bytes, source': seq<Bytes>)
    requires LinesState(stream, lines, [last], source)
    requires raw != [] && raw + Flat(source') == Flat(source)
    ensures LinesState(stream, lines, SplitLines(last + raw), source')
    ensures Flat(SplitLines(last + raw)) + Flat(source') == Flat([last]) + Flat(source)
    ensures |SplitLines(last + raw)| >= 1
  {
    Refill(last, raw);
  }

  /** `_read_line` at the end of the file: the fragment is answered and the buffer emptied. */
  lemma EofState(stream: Bytes, lines: seq<Bytes>, last: Bytes)
    requires LinesState(stream, lines, [last], [])
    ensures LinesState(stream, if last == [] then lines else lines + [last], [], [])
    ensures Flat([last]) + Flat([]) == last
  {
    FlatSnoc(lines, last);
    FlatOne(last);
  }

  /** `_read_line` with a complete line buffered: it is answered. */
  lemma PopState(stream: Bytes, lines: seq<Bytes>, buffer: seq<Bytes>, source: seq<Bytes>)
    requires LinesState(stream, lines, buffer, source) && |buffer| >= 2
    ensures LinesState(stream, lines + [buffer[0]], buffer[1..], source)
    ensures buffer[0] + (Flat(buffer[1..]) + Flat(source)) == Flat(buffer) + Flat(source)
    ensures EndsLine(buffer[0]) && buffer[1] != []
    ensures buffer[0][|buffer[0]| - 1] == CR ==> buffer[1][0] != LF
  {
    PopLine(buffer);
    FlatSnoc(lines, buffer[0]);
    PopBytes(Flat(lines), buffer[0], Flat(buffer[1..]), Flat(source));
    AnsweredLines(lines, buffer[0]);
  }

  lemma PopBytes(a: Bytes, b: Bytes, c: Bytes, d: Bytes)
    ensures (a + b) + (c + d) == a + ((b + c) + d)
    ensures b + (c + d) == (b + c) + d
  {
  }

  /** A complete, non-empty line answered after complete, non-empty lines. */
  lemma AnsweredLines(lines: seq<Bytes>, line: Bytes)
    requires forall i :: 0 <= i < |lines| ==> lines[i] != [] && EndsLine(lines[i])
    requires line != [] && EndsLine(line)
    ensures forall i :: 0 <= i < |lines| + 1 ==> (lines + [line])[i] != [] && EndsLine((lines + [line])[i])
  {
    var lines' := lines + [line];
    assert forall i :: 0 <= i < |lines| ==> lines'[i] == lines[i];
  }

  lemma MangledSnoc(decode: Bytes -> seq<CodePoint>, encode: seq<CodePoint> -> Bytes, lines: seq<Bytes>, line: Bytes)
    ensures Mangled(decode, encode, lines + [line]) == Mangled(decode, encode, lines) + Mangle(decode, encode, line)
  {
    assert (lines + [line])[..|lines|] == lines;
  }

  /** `_read` fetching the next line once the current one is used up. */
  lemma NextLineState(decode: Bytes -> seq<CodePoint>, encode: seq<CodePoint> -> Bytes, emitted: Bytes, rest: Bytes, lines: seq<Bytes>, line: Bytes)
    requires rest == [] && emitted + rest == Mangled(decode, encode, lines)
    ensures emitted + Mangle(decode, encode, line)[0..] == Mangled(decode, encode, lines + [line])
  {
    MangledSnoc(decode, encode, lines, line);
  }

  /**
   * What `_read` keeps: the current line is the last line answered, mangled, and
   * what was read plus the rest of the current line are the mangled lines so far.
   */
  ghost predicate AnsweredState(decode: Bytes -> seq<CodePoint>, encode: seq<CodePoint> -> Bytes, lines: seq<Bytes>, current: Bytes, offset: int, emitted: Bytes)
  {
    0 <= offset <= |current|
    && current == (if lines == [] then [] else Mangle(decode, encode, lines[|lines| - 1]))
    && emitted + current[offset..] == Mangled(decode, encode, lines)
  }

  lemma AppendAssociates(a: Bytes, b: Bytes, c: Bytes)
    ensures a + (b + c) == (a + b) + c
  {
  }

  /** `_read` answering a slice of the current line. */
  lemma SliceState(decode: Bytes -> seq<CodePoint>, encode: seq<CodePoint> -> Bytes, lines: seq<Bytes>, current: Bytes, offset: int, end: int, emitted: Bytes)
    requires AnsweredState(decode, encode, lines, current, offset, emitted) && offset <= end <= |current|
    ensures AnsweredState(decode, encode, lines, current, end, emitted + current[offset..end])
  {
    AppendAssociates(emitted, current[offset..end], current[end..]);
    assert current[offset..] == current[offset..end] + current[end..];
  }

  class BZ2Reader {
    /** What each further read of the file decompresses to; the file ends after the last one. */
    var source: seq<Bytes>
    /** `_line_buffer`: lines split off but not yet answered; the last may be incomplete. */
    var lineBuffer: seq<Bytes>
    var currentLine: Bytes
    var currentOffset: int
    const decode: Bytes -> seq<CodePoint>
    const encode: seq<CodePoint> -> Bytes

    /** Everything the file decompresses to. */
    ghost const stream: Bytes
    /** The lines `_read_line` has answered. */
    ghost var lines: seq<Bytes>
    /** The bytes `_read` has answered. */
    ghost var emitted: Bytes

    /** What is still to come from the buffer and the file. */
    ghost function Remaining(): Bytes
      reads this
    {
      Flat(lineBuffer) + Flat(source)
    }

    /** The invariant of the line reader. */
    ghost predicate LinesValid()
      reads this`lineBuffer, this`source, this`lines
    {
      LinesState(stream, lines, lineBuffer, source)
    }

    /** The invariant of the whole reader: what `_read` answered and what is left of the current line are the mangled lines. */
    ghost predicate Valid()
      reads this
    {
      LinesValid() && AnsweredState(decode, encode, lines, currentLine, currentOffset, emitted)
    }

    /** The current line is used up and the file is read to its end. */
    ghost predicate Exhausted()
      reads this
    {
      currentOffset >= |currentLine| && lineBuffer == []
    }

    /** `BZ2Reader.__init__`: the buffer holds one empty fragment. */
    constructor(chunks: seq<Bytes>, decode: Bytes -> seq<CodePoint>, encode: seq<CodePoint> -> Bytes)
      ensures Valid() && stream == Flat(chunks) && lines == [] && emitted == []
      ensures source == chunks && lineBuffer == [[]] && currentLine == [] && currentOffset == 0
      ensures this.decode == decode && this.encode == encode
    {
      source := chunks;
      lineBuffer := [[]];
      currentLine := [];
      currentOffset := 0;
      this.decode := decode;
      this.encode := encode;
      stream := Flat(chunks);
      lines := [];
      emitted := [];
    }

    /** `_read_raw`: the next chunk that decompresses to something, or nothing once the file ends. */
    method ReadRaw() returns (raw: Bytes)
      modifies this`source
      ensures raw + Flat(source) == old(Flat(source))
      ensures raw == [] ==> source == []
      ensures |source| <= old(|source|) && (raw != [] ==> |source| < old(|source|))
    {
      while true
        invariant Flat(source) == old(Flat(source)) && |source| <= old(|source|)
        decreases |source|
      {
        if source == [] {
          return [];
        }
        var decompressed := source[0];
        source := source[1..];
        if decompressed != [] {
          return decompressed;
        }
      }
    }

    /**
     * `_read_line`: the next line, or nothing once the stream is used up. The
     * last fragment stays buffered until more data or the end of the file comes.
     */
    method ReadLine() returns (line: Bytes)
      requires LinesValid()
      modifies this`source, this`lineBuffer, this`lines
      ensures LinesValid()
      ensures line + Remaining() == old(Remaining())
      ensures lines == (if line == [] then old(lines) else old(lines) + [line])
      ensures old(lineBuffer) == [] ==> line == []
      ensures line == [] ==> lineBuffer == [] && source == []
      ensures lineBuffer != [] ==> EndsLine(line)
      ensures EndsLine(line) && line[|line| - 1] == CR && Remaining() != [] ==> Remaining()[0] != LF
    {
      if lineBuffer == [] {
        return [];
      }
      var eof := FillLineBuffer();
      if eof {
        line := lineBuffer[0];
        assert lineBuffer == [line];
        EofState(stream, lines, line);
        lineBuffer := [];
        if line != [] {
          lines := lines + [line];
        }
        return;
      }
      PopState(stream, lines, lineBuffer, source);
      line := lineBuffer[0];
      lineBuffer := lineBuffer[1..];
      lines := lines + [line];
    }

    /** The loop of `_read_line`: new data is split into the buffer until it holds a whole line or the file ends. */
    method FillLineBuffer() returns (eof: bool)
      requires LinesValid() && lineBuffer != []
      modifies this`source, this`lineBuffer
      ensures LinesValid() && lineBuffer != [] && Remaining() == old(Remaining())
      ensures eof ==> |lineBuffer| == 1 && source == []
      ensures !eof ==> |lineBuffer| >= 2
    {
      ghost var rem := Remaining();
      while |lineBuffer| == 1
        invariant LinesState(stream, lines, lineBuffer, source) && lineBuffer != []
        invariant Flat(lineBuffer) + Flat(source) == rem
        decreases |source|
      {
        var before := source;
        var last := lineBuffer[0];
        assert lineBuffer == [last];
        var raw := ReadRaw();
        if raw == [] {
          return true;
        }
        RefillState(stream, lines, last, before, raw, source);
        lineBuffer := SplitLines(last + raw);
      }
      return false;
    }

    /** The loop body of `_read`: the next line is fetched and mangled, if there is one. */
    method NextLine() returns (more: bool)
      requires Valid() && currentOffset >= |currentLine|
      modifies this`source, this`lineBuffer, this`lines, this`currentLine, this`currentOffset
      ensures Valid() && emitted == old(emitted)
      ensures more ==> |lines| == old(|lines|) + 1 && lines[..old(|lines|)] == old(lines) && currentOffset == 0
      ensures more ==> |Remaining()| < old(|Remaining()|)
      ensures !more ==> Exhausted() && lines == old(lines)
      ensures old(lineBuffer) == [] ==> !more
    {
      ghost var before := lines;
      var line := ReadLine();
      if line == [] {
        return false;
      }
      NextLineState(decode, encode, emitted, currentLine[currentOffset..], before, line);
      currentLine := Mangle(decode, encode, line);
      currentOffset := 0;
      assert lines[..|before|] == before;
      return true;
    }

    /**
     * `_read`: at most `amount` bytes of the current mangled line, from the
     * current offset on; a new line is fetched only when the current one is used up.
     */
    method ReadSome(amount: int) returns (data: Bytes)
      requires Valid() && amount > 0
      modifies this`source, this`lineBuffer, this`lines, this`currentLine, this`currentOffset, this`emitted
      ensures Valid()
      ensures emitted == old(emitted) + data
      ensures |data| <= amount
      ensures data == [] ==> Exhausted()
      ensures data != [] ==> currentOffset >= |data| && data == currentLine[currentOffset - |data|..currentOffset]
      ensures old(currentOffset < |currentLine|) ==>
        lines == old(lines) && currentLine == old(currentLine) && currentOffset == old(currentOffset) + |data|
        && data == old(currentLine[currentOffset..Min(currentOffset + amount, |currentLine|)])
      ensures old(Exhausted()) ==> data == [] && lines == old(lines)
    {
      while currentOffset >= |currentLine|
        invariant Valid() && emitted == old(emitted)
        invariant old(currentOffset < |currentLine|) ==> lines == old(lines) && currentLine == old(currentLine) && currentOffset == old(currentOffset)
        invariant old(Exhausted()) ==> lines == old(lines) && lineBuffer == []
        decreases |Remaining()|
      {
        var more := NextLine();
        if !more {
          return [];
        }
      }
      data := TakeSlice(amount);
    }

    /** The end of `_read`: the slice of the current line from the offset on, and the offset moved past it. */
    method TakeSlice(amount: int) returns (data: Bytes)
      requires Valid() && amount > 0 && currentOffset < |currentLine|
      modifies this`currentOffset, this`emitted
      ensures Valid()
      ensures data == old(currentLine[currentOffset..Min(currentOffset + amount, |currentLine|)])
      ensures currentOffset == old(currentOffset) + |data| && emitted == old(emitted) + data
      ensures 1 <= |data| <= amount && data == currentLine[currentOffset - |data|..currentOffset]
    {
      var end := Min(currentOffset + amount, |currentLine|);
      data := currentLine[currentOffset..end];
      SliceState(decode, encode, lines, currentLine, currentOffset, end, emitted);
      currentOffset := end;
      emitted := emitted + data;
    }

    /** `read`: exactly `amount` bytes unless the stream runs out first. */
    method Read(amount: int) returns (result: Bytes)
      requires Valid()
      modifies this`source, this`lineBuffer, this`lines, this`currentLine, this`currentOffset, this`emitted
      ensures Valid()
      ensures emitted == old(emitted) + result
      ensures amount <= 0 ==> result == []
      ensures amount > 0 ==> |result| <= amount
      ensures |result| < amount ==> Exhausted()
    {
      result := [];
      var left := amount;
      while left > 0
        invariant Valid() && emitted == old(emitted) + result
        invariant left <= amount && (amount > 0 ==> 0 <= left && |result| + left == amount)
        invariant amount <= 0 ==> result == []
      {
        var data := ReadSome(left);
        if data == [] {
          break;
        }
        left := left - |data|;
        AppendAssociates(old(emitted), result, data);
        result := result + data;
      }
    }

    /** Once the reader is exhausted it has answered the whole stream, mangled line by line. */
    lemma ExhaustedAnsweredAll()
      requires Valid() && Exhausted()
      ensures Flat(lines) == stream
      ensures emitted == Mangled(decode, encode, lines)
    {
    }
  }
}
