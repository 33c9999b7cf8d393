/** A multipart/related response body (RFC 2387; section 8.6.1.2.1 of DICOM
    PS3.18): every part is "--boundary", CRLF, the part's headers and content,
    CRLF; the body ends with "--boundary--". */
module MultipartRelated {
  import opened JavaText
  import opened HeaderFlushed

  const ContentTypeKey: string := "Content-Type"
  const ContentIdKey: string := "Content-ID"
  const TransferEncodingKey: string := "Content-Transfer-Encoding"

  // ---------------------------------------------------------------- headers

  /** Position of the header named `key`, or -1. */
  function FindKey(h: seq<Header>, key: string): (r: int)
    ensures -1 <= r < |h|
    ensures r >= 0 ==> h[r].key == key
    ensures r < 0 ==> forall i :: 0 <= i < |h| ==> h[i].key != key
  {
    if h == [] then -1
    else if h[|h| - 1].key == key then |h| - 1
    else FindKey(h[..|h| - 1], key)
  }

  /** The values of the header named `key`; none when it is absent. */
  function ValuesOf(h: seq<Header>, key: string): seq<string>
  {
    var i := FindKey(h, key);
    if i < 0 then [] else h[i].values
  }

  /** No header name occurs twice, as in an HttpHeaders map. */
  predicate UniqueKeys(h: seq<Header>)
  {
    forall i, j :: 0 <= i < j < |h| ==> h[i].key != h[j].key
  }

  /** HttpHeaders.add: one more value for the key, a new header at the end when
      the key is new. */
  function AddHeader(h: seq<Header>, key: string, value: string): seq<Header>
  {
    var i := FindKey(h, key);
    if i < 0 then h + [Header(key, [value])]
    else h[i := Header(key, h[i].values + [value])]
  }

  /** HttpHeaders.set (setContentType): the key's values become exactly [value];
      an existing header keeps its place. */
  function SetHeader(h: seq<Header>, key: string, value: string): seq<Header>
  {
    var i := FindKey(h, key);
    if i < 0 then h + [Header(key, [value])]
    else h[i := Header(key, [value])]
  }

  /** add appends the value to the key's values and leaves other keys alone. */
  lemma AddHeaderSpec(h: seq<Header>, key: string, value: string)
    ensures var r := AddHeader(h, key, value);
      (UniqueKeys(h) ==> UniqueKeys(r)) &&
      ValuesOf(r, key) == ValuesOf(h, key) + [value] &&
      forall k :: k != key ==> ValuesOf(r, k) == ValuesOf(h, k)
  {
    var i := FindKey(h, key);
    if i < 0 {
      FindKeySnoc(h, Header(key, [value]));
    } else {
      FindKeyUpdate(h, i, Header(key, h[i].values + [value]));
    }
  }

  /** set leaves exactly [value] under the key, other keys alone, and adds a
      header only when the key was absent. */
  lemma SetHeaderSpec(h: seq<Header>, key: string, value: string)
    ensures var r := SetHeader(h, key, value);
      (UniqueKeys(h) ==> UniqueKeys(r)) &&
      ValuesOf(r, key) == [value] &&
      (forall k :: k != key ==> ValuesOf(r, k) == ValuesOf(h, k)) &&
      |r| == |h| + (if FindKey(h, key) < 0 then 1 else 0)
  {
    var i := FindKey(h, key);
    if i < 0 {
      FindKeySnoc(h, Header(key, [value]));
    } else {
      FindKeyUpdate(h, i, Header(key, [value]));
    }
  }

  lemma FindKeySnoc(h: seq<Header>, e: Header)
    requires FindKey(h, e.key) < 0
    ensures UniqueKeys(h) ==> UniqueKeys(h + [e])
    ensures FindKey(h + [e], e.key) == |h|
    ensures forall k :: k != e.key ==> FindKey(h + [e], k) == FindKey(h, k)
  {
    assert (h + [e])[..|h|] == h;
  }

  /** Replacing the header found for a key: it is found at the same place, and
      every other key is found where it was. */
  lemma {:induction false} FindKeyUpdate(h: seq<Header>, i: nat, e: Header)
    requires i < |h| && FindKey(h, e.key) == i
    ensures UniqueKeys(h) ==> UniqueKeys(h[i := e])
    ensures FindKey(h[i := e], e.key) == i
    ensures forall k :: k != e.key ==> FindKey(h[i := e], k) == FindKey(h, k)
  {
    var n := |h| - 1;
    var r := h[i := e];
    if i == n {
      assert r[..n] == h[..n];
    } else {
      assert r[..n] == h[..n][i := e];
      FindKeyUpdate(h[..n], i, e);
    }
  }

  /** Setting a header twice to the same value is setting it once. */
  lemma SetHeaderIdempotent(h: seq<Header>, key: string, value: string)
    ensures SetHeader(SetHeader(h, key, value), key, value) == SetHeader(h, key, value)
  {
    var r := SetHeader(h, key, value);
    SetHeaderSpec(h, key, value);
    var i := FindKey(r, key);
    assert i >= 0 && r[i] == Header(key, [value]);
    assert r[i := Header(key, [value])] == r;
  }

  // ---------------------------------------------------------------- parts

  /** An OutputPart: its headers, its media type (as MediaType.toString writes
      it), and the write(byte[]) calls its entity makes when it writes itself. */
  datatype Part = Part(headers: seq<Header>, mediaType: string, entity: seq<seq<byte>>)

  /** The part as writePart leaves it: its Content-Type header set. */
  function Typed(p: Part): Part
  {
    p.(headers := SetHeader(p.headers, ContentTypeKey, p.mediaType))
  }

  /** The bytes of one part: boundary, CRLF, what its entity writes through a
      header-flushing stream, CRLF. */
  function PartBytes(boundary: seq<byte>, p: Part): seq<byte>
  {
    boundary + CrLf + Framed(Typed(p).headers, p.entity) + CrLf
  }

  /** The parts one after another, in the list's order. */
  function PartsBytes(boundary: seq<byte>, parts: seq<Part>): seq<byte>
  {
    if parts == [] then []
    else PartsBytes(boundary, parts[..|parts| - 1]) + PartBytes(boundary, parts[|parts| - 1])
  }

  /** "--" and the boundary, as writeTo encodes it. */
  function Delimiter(boundary: string): seq<byte>
  {
    Ascii("--" + boundary)
  }

  /** What writeTo writes: every part, then the close delimiter. */
  function Body(parts: seq<Part>, boundary: string): seq<byte>
  {
    PartsBytes(Delimiter(boundary), parts) + Delimiter(boundary) + Ascii("--")
  }

  class MultipartRelatedOutput {
    var parts: seq<Part>
    /** UUID.randomUUID() in the source; chosen by the caller here. */
    var boundary: string
    var startInfo: Option<string>

    constructor(boundary: string)
      ensures parts == [] && this.boundary == boundary && startInfo == None
    {
      parts := [];
      this.boundary := boundary;
      startInfo := None;
    }

    /** addPart(entity, mediaType, contentId, contentTransferEncoding): a new last
        part carrying the non-null ones of the two headers. */
    method AddPart(entity: seq<seq<byte>>, mediaType: string, contentId: Option<string>, transferEncoding: Option<string>)
      modifies this
      ensures parts == old(parts) + [Part(NewHeaders(contentId, transferEncoding), mediaType, entity)]
      ensures boundary == old(boundary) && startInfo == old(startInfo)
    {
      var headers: seq<Header> := [];
      if transferEncoding.Some? {
        headers := AddHeader(headers, TransferEncodingKey, transferEncoding.value);
      }
      if contentId.Some? {
        headers := AddHeader(headers, ContentIdKey, contentId.value);
      }
      parts := parts + [Part(headers, mediaType, entity)];
    }

    /** setStartInfo: records the start-info parameter; parts and boundary
        are untouched. A null value is None. */
    method SetStartInfo(info: Option<string>)
      modifies this
      ensures startInfo == info && parts == old(parts) && boundary == old(boundary)
    {
      startInfo := info;
    }

    /** getRootPart: the first part; None is the IndexOutOfBoundsException of
        an empty list. */
    function RootPart(): (r: Option<Part>)
      reads this
      ensures r.Some? <==> |parts| > 0
      ensures r.Some? ==> r.value == parts[0]
    {
      if |parts| == 0 then None else Some(parts[0])
    }

    /** writeTo: the parts in order, then the close delimiter. Each part's
        Content-Type header is set on the way, as writePart does. */
    method WriteTo(out: OutputSink)
      modifies this, out
      ensures out.written == old(out.written) + Body(old(parts), old(boundary))
      ensures |parts| == |old(parts)| && forall i :: 0 <= i < |parts| ==> parts[i] == Typed(old(parts)[i])
      ensures boundary == old(boundary) && startInfo == old(startInfo)
    {
      var boundaryBytes := Ascii("--" + boundary);
      ghost var ps := parts;
      ghost var start := out.written;
      for i := 0 to |parts|
        invariant |parts| == |ps|
        invariant forall k :: 0 <= k < i ==> parts[k] == Typed(ps[k])
        invariant forall k :: i <= k < |parts| ==> parts[k] == ps[k]
        invariant out.written == start + PartsBytes(boundaryBytes, ps[..i])
        invariant boundary == old(boundary) && startInfo == old(startInfo)
      {
        ghost var before := PartsBytes(boundaryBytes, ps[..i]);
        WritePart(out, boundaryBytes, i);
        PartsBytesSnoc(boundaryBytes, ps, i);
        Assoc(start, before, PartBytes(boundaryBytes, ps[i]));
      }
      assert ps[..|ps|] == ps;
      WriteClose(out, boundaryBytes);
      Assoc(start, PartsBytes(boundaryBytes, ps), boundaryBytes + Ascii("--"));
      Assoc(PartsBytes(boundaryBytes, ps), boundaryBytes, Ascii("--"));
    }

    /** The close delimiter: the boundary delimiter then "--". */
    method WriteClose(out: OutputSink, boundaryBytes: seq<byte>)
      modifies out
      ensures out.written == old(out.written) + (boundaryBytes + Ascii("--"))
    {
      out.Write(boundaryBytes);
      out.Write(Ascii("--"));
      Assoc(old(out.written), boundaryBytes, Ascii("--"));
    }

    /** writePart: the delimiter and CRLF, the entity written through a stream
        that sends the part's headers ahead of its first bytes, then CRLF. */
    method WritePart(out: OutputSink, boundaryBytes: seq<byte>, i: nat)
      requires i < |parts|
      modifies this, out
      ensures parts == old(parts)[i := Typed(old(parts)[i])]
      ensures out.written == old(out.written) + PartBytes(boundaryBytes, old(parts)[i])
      ensures boundary == old(boundary) && startInfo == old(startInfo)
    {
      out.Write(boundaryBytes);
      out.Write(CrLf);
      var p := parts[i];
      var headers := SetHeader(p.headers, ContentTypeKey, p.mediaType);
      parts := parts[i := p.(headers := headers)];
      WriteChunks(headers, out, p.entity);
      out.Write(CrLf);
    }
  }

  /** The headers addPart gives a new part. */
  function NewHeaders(contentId: Option<string>, transferEncoding: Option<string>): (h: seq<Header>)
    ensures UniqueKeys(h)
    ensures ValuesOf(h, TransferEncodingKey) == (if transferEncoding.Some? then [transferEncoding.value] else [])
    ensures ValuesOf(h, ContentIdKey) == (if contentId.Some? then [contentId.value] else [])
    ensures ValuesOf(h, ContentTypeKey) == []
  {
    var h0: seq<Header> := [];
    var h1 := if transferEncoding.Some? then AddHeader(h0, TransferEncodingKey, transferEncoding.value) else h0;
    if contentId.Some? then AddHeader(h1, ContentIdKey, contentId.value) else h1
  }

  lemma PartsBytesSnoc(boundary: seq<byte>, parts: seq<Part>, i: nat)
    requires i < |parts|
    ensures PartsBytes(boundary, parts[..i + 1]) == PartsBytes(boundary, parts[..i]) + PartBytes(boundary, parts[i])
  {
    assert parts[..i + 1][..i] == parts[..i];
  }

  // ---------------------------------------------------------------- properties

  lemma Assoc(a: seq<byte>, b: seq<byte>, c: seq<byte>)
    ensures (a + b) + c == a + (b + c)
  {
  }

  /** Parts are written in list order: the bytes of two lists of parts are the
      bytes of the first followed by those of the second. */
  lemma {:induction false} PartsBytesConcat(boundary: seq<byte>, xs: seq<Part>, ys: seq<Part>)
    ensures PartsBytes(boundary, xs + ys) == PartsBytes(boundary, xs) + PartsBytes(boundary, ys)
    decreases |ys|
  {
    if ys == [] {
      assert xs + ys == xs;
    } else {
      var init := ys[..|ys| - 1];
      var last := ys[|ys| - 1];
      var a, b, c := PartsBytes(boundary, xs), PartsBytes(boundary, init), PartBytes(boundary, last);
      PartsBytesConcat(boundary, xs, init);
      assert PartsBytes(boundary, xs + ys) == PartsBytes(boundary, xs + init) + c by {
        DropLast(xs, ys);
      }
      assert PartsBytes(boundary, ys) == b + c;
      Assoc(a, b, c);
    }
  }

  lemma DropLast(xs: seq<Part>, ys: seq<Part>)
    requires ys != []
    ensures (xs + ys)[..|xs + ys| - 1] == xs + ys[..|ys| - 1]
    ensures (xs + ys)[|xs + ys| - 1] == ys[|ys| - 1]
  {
  }

  /** The root part is written first: the body of a non-empty list starts with
      the delimiter, CRLF and then the root part's bytes. */
  lemma RootPartFirst(parts: seq<Part>, boundary: string)
    requires |parts| > 0
    ensures var b := Body(parts, boundary);
      var first := PartBytes(Delimiter(boundary), parts[0]);
      |first| <= |b| && b[..|first|] == first &&
      first[..|Delimiter(boundary)| + 2] == Delimiter(boundary) + CrLf
  {
    var d := Delimiter(boundary);
    var first := PartBytes(d, parts[0]);
    PartsBytesConcat(d, [parts[0]], parts[1..]);
    assert [parts[0]] + parts[1..] == parts;
    assert PartsBytes(d, [parts[0]]) == first by {
      assert [parts[0]][..0] == [];
    }
    TakeFront(first, PartsBytes(d, parts[1..]) + d, Ascii("--"));
    TakeFront(d + CrLf, Framed(Typed(parts[0]).headers, parts[0].entity), CrLf);
  }

  /** A concatenation begins with its first operand. */
  lemma TakeFront(a: seq<byte>, x: seq<byte>, y: seq<byte>)
    ensures |a| <= |a + x + y| && (a + x + y)[..|a|] == a
  {
  }

  /** The body ends with the close delimiter "--boundary--", and the body of no
      parts is that delimiter alone. */
  lemma BodyEnds(parts: seq<Part>, boundary: string)
    ensures var b := Body(parts, boundary);
      var close := Ascii("--" + boundary + "--");
      |close| <= |b| && b[|b| - |close|..] == close
    ensures parts == [] ==> Body(parts, boundary) == Ascii("--" + boundary + "--")
  {
    AsciiConcat("--" + boundary, "--");
    var b := Body(parts, boundary);
    var close := Ascii("--" + boundary + "--");
    assert b == PartsBytes(Delimiter(boundary), parts) + close;
  }

  /** A part whose entity writes nothing gets neither its headers nor the empty
      line after them: only the delimiter and two CRLFs. */
  lemma EmptyEntityNoHeaders(boundary: seq<byte>, p: Part)
    requires p.entity == []
    ensures PartBytes(boundary, p) == boundary + CrLf + CrLf
  {
  }

  /** A part whose entity writes something carries its Content-Type header,
      set to the part's media type, ahead of the entity's bytes. */
  lemma ContentTypeSent(boundary: seq<byte>, p: Part)
    requires p.entity != []
    ensures var h := Typed(p).headers;
      ValuesOf(h, ContentTypeKey) == [p.mediaType] &&
      PartBytes(boundary, p) == boundary + CrLf + HeaderBlock(h) + Flatten(p.entity) + CrLf
  {
    SetHeaderSpec(p.headers, ContentTypeKey, p.mediaType);
  }

  /** Writing the body a second time gives the same bytes: the Content-Type
      header set by the first write is set again to the same value. */
  lemma {:induction false} RewriteSameBytes(parts: seq<Part>, typed: seq<Part>, boundary: string)
    requires |typed| == |parts|
    requires forall i :: 0 <= i < |parts| ==> typed[i] == Typed(parts[i])
    ensures Body(typed, boundary) == Body(parts, boundary)
  {
    TypedBytes(Delimiter(boundary), parts, typed);
  }

  lemma {:induction false} TypedBytes(b: seq<byte>, parts: seq<Part>, typed: seq<Part>)
    requires |typed| == |parts|
    requires forall i :: 0 <= i < |parts| ==> typed[i] == Typed(parts[i])
    ensures PartsBytes(b, typed) == PartsBytes(b, parts)
    decreases |parts|
  {
    if parts != [] {
      var n := |parts| - 1;
      TypedBytes(b, parts[..n], typed[..n]);
      SetHeaderIdempotent(parts[n].headers, ContentTypeKey, parts[n].mediaType);
    }
  }
}
