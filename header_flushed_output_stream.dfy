/** An output stream that writes a part's HTTP headers in front of its first
    body bytes, once: "key: value" lines, each ended by CRLF, then an empty
    line (section 3.1 of RFC 7230). The bytes are US-ASCII. */
module HeaderFlushed {
  import opened JavaText

  newtype byte = x: int | 0 <= x < 256

  /** The byte US-ASCII encodes a character as: itself below 128, else '?'. */
  function AsciiByte(c: char): byte
  {
    if c as int < 128 then c as int as byte else '?' as int as byte
  }

  /** String.getBytes(US_ASCII). */
  function Ascii(s: string): (r: seq<byte>)
    ensures |r| == |s|
  {
    seq(|s|, i requires 0 <= i < |s| => AsciiByte(s[i]))
  }

  lemma AsciiConcat(a: string, b: string)
    ensures Ascii(a + b) == Ascii(a) + Ascii(b)
  {
    assert forall i :: 0 <= i < |a| + |b| ==> Ascii(a + b)[i] == (Ascii(a) + Ascii(b))[i];
  }

  const CrLf: seq<byte> := [13, 10]
  const ColonSpace: seq<byte> := [58, 32]

  /** One header with its values, in the order HttpHeaders keeps them. */
  datatype Header = Header(key: string, values: seq<string>)

  /** The bytes in the order the chunks were written. */
  function Flatten(chunks: seq<seq<byte>>): seq<byte>
  {
    if chunks == [] then [] else Flatten(chunks[..|chunks| - 1]) + chunks[|chunks| - 1]
  }

  /** "key: value" and CRLF. */
  function Line(key: string, value: string): seq<byte>
  {
    Ascii(key) + ColonSpace + Ascii(value) + CrLf
  }

  /** The lines of one header, one per value. */
  function EntryLines(key: string, values: seq<string>): seq<byte>
  {
    if values == [] then [] else EntryLines(key, values[..|values| - 1]) + Line(key, values[|values| - 1])
  }

  /** The lines of all headers, header by header. */
  function Lines(headers: seq<Header>): seq<byte>
  {
    if headers == [] then []
    else Lines(headers[..|headers| - 1]) + EntryLines(headers[|headers| - 1].key, headers[|headers| - 1].values)
  }

  lemma EntryLinesSnoc(key: string, values: seq<string>, j: nat)
    requires j < |values|
    ensures EntryLines(key, values[..j + 1]) == EntryLines(key, values[..j]) + Line(key, values[j])
  {
    assert values[..j + 1][..j] == values[..j];
  }

  lemma LinesSnoc(headers: seq<Header>, i: nat)
    requires i < |headers|
    ensures Lines(headers[..i + 1]) == Lines(headers[..i]) + EntryLines(headers[i].key, headers[i].values)
  {
    assert headers[..i + 1][..i] == headers[..i];
  }

  lemma Append3(a: seq<byte>, b: seq<byte>, c: seq<byte>)
    ensures a + b + c == a + (b + c)
  {
  }

  /** The four writes of one header line put that line on the stream. */
  lemma LineWritten(w: seq<byte>, key: string, value: string)
    ensures w + Ascii(key) + ColonSpace + Ascii(value) + CrLf == w + Line(key, value)
  {
  }

  /** What flushHeaders writes: the lines, then the empty line. */
  function HeaderBlock(headers: seq<Header>): seq<byte>
  {
    Lines(headers) + CrLf
  }

  /** The delegate OutputStream: all it keeps is what was written to it. */
  class OutputSink {
    var written: seq<byte>

    constructor()
      ensures written == []
    {
      written := [];
    }

    method Write(bytes: seq<byte>)
      modifies this
      ensures written == old(written) + bytes
    {
      written := written + bytes;
    }
  }

  class HeaderFlushedOutputStream {
    const headers: seq<Header>
    const stream: OutputSink
    var headersFlushed: bool
    /** What the delegate held when this stream was made. */
    ghost const start: seq<byte>
    /** The body bytes written through this stream. */
    ghost var passed: seq<byte>

    /** The delegate holds its earlier bytes, then, once anything was written,
        the header block followed by the body bytes; before that, nothing more. */
    ghost predicate Valid()
      reads this, stream
    {
      stream.written == start + (if headersFlushed then HeaderBlock(headers) + passed else []) &&
      (!headersFlushed ==> passed == [])
    }

    constructor(headers: seq<Header>, delegate: OutputSink)
      ensures this.headers == headers && stream == delegate && !headersFlushed
      ensures start == delegate.written && passed == [] && Valid()
    {
      this.headers := headers;
      stream := delegate;
      headersFlushed := false;
      start := delegate.written;
      passed := [];
    }

    /** flushHeaders: the header block the first time, nothing afterwards. */
    method FlushHeaders()
      requires Valid()
      modifies this, stream
      ensures Valid() && headersFlushed && passed == old(passed)
      ensures stream.written == old(stream.written) + (if old(headersFlushed) then [] else HeaderBlock(headers))
    {
      if headersFlushed {
        return;
      }
      headersFlushed := true;
      WriteLines(stream, headers);
      stream.Write(CrLf);
      assert stream.written == start + HeaderBlock(headers) + passed;
    }

    /** write(byte[]): the headers if still due, then the bytes unchanged. */
    method Write(bytes: seq<byte>)
      requires Valid()
      modifies this, stream
      ensures Valid() && headersFlushed && passed == old(passed) + bytes
      ensures stream.written == old(stream.written) + (if old(headersFlushed) then [] else HeaderBlock(headers)) + bytes
    {
      FlushHeaders();
      stream.Write(bytes);
      passed := passed + bytes;
    }

    /** write(byte[], off, len): the `len` bytes from `off`. */
    method WriteRange(bytes: seq<byte>, off: nat, len: nat)
      requires Valid() && off + len <= |bytes|
      modifies this, stream
      ensures Valid() && headersFlushed && passed == old(passed) + bytes[off..off + len]
      ensures stream.written == old(stream.written) + (if old(headersFlushed) then [] else HeaderBlock(headers)) + bytes[off..off + len]
    {
      FlushHeaders();
      stream.Write(bytes[off..off + len]);
      passed := passed + bytes[off..off + len];
    }

    /** write(int): the low eight bits of the value. */
    method WriteByte(b: int)
      requires Valid()
      modifies this, stream
      ensures Valid() && headersFlushed && passed == old(passed) + [LowByte(b)]
      ensures stream.written == old(stream.written) + (if old(headersFlushed) then [] else HeaderBlock(headers)) + [LowByte(b)]
    {
      FlushHeaders();
      stream.Write([LowByte(b)]);
      passed := passed + [LowByte(b)];
    }
  }

  /** The outer loop of flushHeaders: the lines of each header in turn. */
  method WriteLines(stream: OutputSink, headers: seq<Header>)
    modifies stream
    ensures stream.written == old(stream.written) + Lines(headers)
  {
    for i := 0 to |headers|
      invariant stream.written == old(stream.written) + Lines(headers[..i])
    {
      WriteEntryLines(stream, headers[i].key, headers[i].values);
      LinesSnoc(headers, i);
      Append3(old(stream.written), Lines(headers[..i]), EntryLines(headers[i].key, headers[i].values));
    }
    assert headers[..|headers|] == headers;
  }

  /** The inner loop of flushHeaders: one line per value of one header. */
  method WriteEntryLines(stream: OutputSink, key: string, values: seq<string>)
    modifies stream
    ensures stream.written == old(stream.written) + EntryLines(key, values)
  {
    for j := 0 to |values|
      invariant stream.written == old(stream.written) + EntryLines(key, values[..j])
    {
      WriteLine(stream, key, values[j]);
      EntryLinesSnoc(key, values, j);
      Append3(old(stream.written), EntryLines(key, values[..j]), Line(key, values[j]));
    }
    assert values[..|values|] == values;
  }

  /** One header line: the name, ": ", the value and CRLF. */
  method WriteLine(stream: OutputSink, key: string, value: string)
    modifies stream
    ensures stream.written == old(stream.written) + Line(key, value)
  {
    ghost var w := stream.written;
    stream.Write(Ascii(key));
    stream.Write(ColonSpace);
    stream.Write(Ascii(value));
    stream.Write(CrLf);
    LineWritten(w, key, value);
  }

  /** The byte OutputStream.write(int) keeps: the value modulo 256, which for a
      negative int is its low eight bits in two's complement. */
  function LowByte(b: int): (r: byte)
    ensures (r as int - b) % 256 == 0
  {
    (b % 256) as byte
  }

  /** Writing chunk after chunk through a fresh stream: nothing when there is no
      chunk, otherwise the header block once and then the chunks in order. */
  method WriteChunks(headers: seq<Header>, delegate: OutputSink, chunks: seq<seq<byte>>)
    modifies delegate
    ensures delegate.written == old(delegate.written) + Framed(headers, chunks)
  {
    var s := new HeaderFlushedOutputStream(headers, delegate);
    var k := 0;
    while k < |chunks|
      invariant 0 <= k <= |chunks|
      invariant s.stream == delegate && s.headers == headers && s.start == old(delegate.written)
      invariant s.Valid() && s.passed == Flatten(chunks[..k]) && s.headersFlushed == (k > 0)
      modifies s, delegate
    {
      s.Write(chunks[k]);
      assert chunks[..k + 1][..k] == chunks[..k];
      k := k + 1;
    }
    assert chunks[..k] == chunks;
  }

  /** What a part body written in `chunks` puts on the delegate. */
  function Framed(headers: seq<Header>, chunks: seq<seq<byte>>): seq<byte>
  {
    if chunks == [] then [] else HeaderBlock(headers) + Flatten(chunks)
  }

  /** The header block always ends the header section with an empty line: it is
      CRLF alone when no header has a value, and ends in CRLF CRLF otherwise. */
  lemma {:induction false} HeaderBlockEnds(headers: seq<Header>)
    ensures var b := HeaderBlock(headers);
      |b| >= 2 && b[|b| - 2..] == CrLf &&
      (Lines(headers) == [] ==> b == CrLf) &&
      (Lines(headers) != [] ==> |b| >= 4 && b[|b| - 4..] == CrLf + CrLf)
  {
    var b := HeaderBlock(headers);
    if Lines(headers) != [] {
      LinesEnd(headers);
      var l := Lines(headers);
      assert b[|b| - 4..] == l[|l| - 2..] + CrLf;
    }
  }

  /** Header lines, when there are any, end with CRLF. */
  lemma {:induction false} LinesEnd(headers: seq<Header>)
    requires Lines(headers) != []
    ensures var l := Lines(headers); |l| >= 2 && l[|l| - 2..] == CrLf
  {
    var last := headers[|headers| - 1];
    var e := EntryLines(last.key, last.values);
    if e == [] {
      LinesEnd(headers[..|headers| - 1]);
      assert Lines(headers) == Lines(headers[..|headers| - 1]);
    } else {
      var v := last.values[|last.values| - 1];
      var l := Lines(headers);
      var line := Line(last.key, v);
      assert l[|l| - 2..] == line[|line| - 2..];
    }
  }

  /** The number of header lines is the number of values, and each line is at
      least the four bytes of ": " and CRLF. */
  lemma {:induction false} EntryLinesLength(key: string, values: seq<string>)
    ensures |EntryLines(key, values)| >= 4 * |values|
    ensures values == [] <==> EntryLines(key, values) == []
  {
    if values != [] {
      EntryLinesLength(key, values[..|values| - 1]);
    }
  }

  /** Bytes are passed through in the order written: writing a list of chunks
      and then one more is writing their concatenation. */
  lemma FramedSnoc(headers: seq<Header>, chunks: seq<seq<byte>>, c: seq<byte>)
    ensures Framed(headers, chunks + [c]) == HeaderBlock(headers) + Flatten(chunks) + c
  {
    assert (chunks + [c])[..|chunks|] == chunks;
  }
}
