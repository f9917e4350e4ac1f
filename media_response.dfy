// The HTTP responses FileParseUtil builds for downloading and playing a
// stored file: response headers collected in a mutable `HttpHeaders`, the
// status, and a body that is the whole file or one byte range of it. The
// range decision follows RFC 7233: a satisfiable single range is answered
// with 206 and `Content-Range: bytes first-last/complete-length`
// (sections 4.1 and 4.2), an unsatisfiable one with 416 and
// `Content-Range: bytes */complete-length` (section 4.4).
module MediaResponse {
  import opened Base
  import opened JavaPaths
  import opened FileStore
  import opened FileParse

  /** The `HttpHeaders` constants the builders use. */
  datatype HeaderName =
    | ContentDisposition | CacheControl | Pragma | Expires
    | AcceptRanges | ContentRange | ContentLength | ContentType

  /** Spring's header multi-map: the values of each header in the order they were added. */
  type Headers = map<HeaderName, seq<string>>

  /** Every value given to a header. */
  function Values(h: Headers, name: HeaderName): seq<string>
  {
    if name in h then h[name] else []
  }

  /** `add`: one more value for the header. */
  function With(h: Headers, name: HeaderName, value: string): Headers
  {
    h[name := Values(h, name) + [value]]
  }

  /** Spring's `HttpHeaders`, filled in place by the response builders. */
  class HttpHeaders {
    var entries: Headers

    constructor ()
      ensures entries == map[]
    {
      entries := map[];
    }

    /** `add(name, value)`. */
    method Add(name: HeaderName, value: string)
      modifies this
      ensures entries == With(old(entries), name, value)
    {
      entries := With(entries, name, value);
    }

    /** `set(name, value)`: the header's only value from now on. */
    method Set(name: HeaderName, value: string)
      modifies this
      ensures entries == old(entries)[name := [value]]
    {
      entries := entries[name := [value]];
    }
  }

  // ---------------------------------------------------------------- responses

  /** What the response streams: nothing, the whole file, or `length` bytes from `start`. */
  datatype Body = NoBody | WholeFile(path: Path) | FileRange(path: Path, start: int, length: int)

  datatype Response = Response(status: int, headers: Headers, body: Body)

  /** A response with only a status, as `ResponseEntity.status(...).build()` makes it. */
  function Bare(status: int): (r: Response)
    ensures r.headers == map[] && r.body == NoBody
  {
    Response(status, map[], NoBody)
  }

  /** `ResponseEntity.ok().headers(h).contentLength(n).contentType(m).body(b)`. */
  function Ok(h: Headers, length: int, mime: string, body: Body): (r: Response)
    ensures r.status == 200 && r.body == body
    ensures Values(r.headers, ContentLength) == [IntToString(length)]
    ensures Values(r.headers, ContentType) == [mime]
    ensures forall n :: n != ContentLength && n != ContentType ==> Values(r.headers, n) == Values(h, n)
  {
    Response(200, h[ContentLength := [IntToString(length)]][ContentType := [mime]], body)
  }

  /** `Files.probeContentType`: a MIME type, none, or an IO failure. */
  datatype Probe = Probed(mime: Option<string>) | ProbeFailed

  /** The headers `createDownloadResponse` adds: an attachment, and no caching anywhere. */
  function DownloadHeaders(encodedName: string): (h: Headers)
    ensures Values(h, ContentDisposition) == ["attachment; filename=\"" + encodedName + "\""]
    ensures Values(h, CacheControl) == ["no-cache, no-store, must-revalidate"]
    ensures Values(h, Pragma) == ["no-cache"] && Values(h, Expires) == ["0"]
  {
    var h0: Headers := map[];
    var h1 := With(h0, ContentDisposition, "attachment; filename=\"" + encodedName + "\"");
    var h2 := With(h1, CacheControl, "no-cache, no-store, must-revalidate");
    var h3 := With(h2, Pragma, "no-cache");
    With(h3, Expires, "0")
  }

  /** What `createDownloadResponse` answers. */
  function DownloadResponse(fs: FileSystem, path: Path, fileName: string, encode: string -> string, probe: Probe): Response
  {
    if !Exists(fs, path) || !CanRead(fs, path) then Bare(404)
    else if probe.ProbeFailed? then Bare(500)
    else Ok(DownloadHeaders(encode(fileName)), Length(fs, path),
            if probe.mime.Some? then probe.mime.value else OctetStream, WholeFile(path))
  }

  /**
   * `createDownloadResponse(file, fileName)`: 404 when the file is missing or
   * unreadable; otherwise an attachment with caching disabled, the probed MIME
   * type (a byte stream when none is found) and the file's length. A failing
   * probe is caught and answered with 500. `encode` stands for `URLEncoder.encode`.
   */
  lemma DownloadResponseSpec(fs: FileSystem, path: Path, fileName: string, encode: string -> string, probe: Probe)
    ensures var r := DownloadResponse(fs, path, fileName, encode, probe);
      && (r.status == 404 <==> !Exists(fs, path) || !CanRead(fs, path))
      && (r.status == 500 <==> Exists(fs, path) && CanRead(fs, path) && probe.ProbeFailed?)
      && (r.status == 200 || r == Bare(r.status))
      && (r.status == 200 ==>
        && r.body == WholeFile(path)
        && Values(r.headers, ContentDisposition) == ["attachment; filename=\"" + encode(fileName) + "\""]
        && Values(r.headers, CacheControl) == ["no-cache, no-store, must-revalidate"]
        && Values(r.headers, Pragma) == ["no-cache"]
        && Values(r.headers, Expires) == ["0"]
        && Values(r.headers, ContentLength) == [IntToString(Length(fs, path))]
        && Values(r.headers, ContentType) == [if probe.mime.Some? then probe.mime.value else OctetStream])
  {
    if Exists(fs, path) && CanRead(fs, path) && probe.Probed? {
      var h := DownloadHeaders(encode(fileName));
      var mime := if probe.mime.Some? then probe.mime.value else OctetStream;
      var r := Ok(h, Length(fs, path), mime, WholeFile(path));
      assert DownloadResponse(fs, path, fileName, encode, probe) == r;
    }
  }

  /** `createDownloadResponse`, filling its `HttpHeaders` step by step. */
  method CreateDownloadResponse(fs: FileSystem, path: Path, fileName: string, encode: string -> string, probe: Probe)
    returns (r: Response)
    ensures r == DownloadResponse(fs, path, fileName, encode, probe)
  {
    if !Exists(fs, path) || !CanRead(fs, path) {
      return Bare(404);
    }
    var headers := new HttpHeaders();
    headers.Add(ContentDisposition, "attachment; filename=\"" + encode(fileName) + "\"");
    headers.Add(CacheControl, "no-cache, no-store, must-revalidate");
    headers.Add(Pragma, "no-cache");
    headers.Add(Expires, "0");
    if probe.ProbeFailed? {
      return Bare(500);
    }
    var mime := if probe.mime.Some? then probe.mime.value else OctetStream;
    r := Ok(headers.entries, Length(fs, path), mime, WholeFile(path));
  }

  // ---------------------------------------------------------------- ranges

  /** `HttpRange.parseRanges` and `getRangeStart`/`getRangeEnd`: the ranges as `(start, end)` pairs, or a rejected header. */
  datatype RangeParse = Unparsable | Parsed(ranges: seq<(int, int)>)

  /** The three ways `handleRangeRequest` can end. */
  datatype RangeOutcome =
    | BadRange                         // 400: the header did not parse
    | NotSatisfiable(reportsLength: bool) // 416, with `Content-Range: bytes */len` exactly when one range was asked
    | Partial(start: int, end: int)    // 206 for the bytes start..end

  /**
   * The decision of `handleRangeRequest`: only a single range is served, and
   * only when it lies inside the file with `start <= end`.
   */
  function RangeDecision(fileLength: int, ranges: RangeParse): (o: RangeOutcome)
    ensures o.BadRange? <==> ranges.Unparsable?
    ensures o == NotSatisfiable(false) <==> ranges.Parsed? && |ranges.ranges| != 1
    ensures o.Partial? <==>
      ranges.Parsed? && |ranges.ranges| == 1 && ranges.ranges[0].0 <= ranges.ranges[0].1 < fileLength
    ensures o.Partial? ==> (o.start, o.end) == ranges.ranges[0] && 1 <= o.end - o.start + 1 <= fileLength - o.start
  {
    match ranges
    case Unparsable => BadRange
    case Parsed(rs) =>
      if |rs| != 1 then NotSatisfiable(false)
      else
        var (start, end) := rs[0];
        if start >= fileLength || end >= fileLength || start > end then NotSatisfiable(true)
        else Partial(start, end)
  }

  /**
   * What Spring's `getRangeStart`/`getRangeEnd` guarantee of the pairs they
   * give for a file of `fileLength` bytes: the start is never negative and the
   * end never past the last byte.
   */
  predicate SpringRanges(fileLength: int, ranges: RangeParse)
  {
    ranges.Parsed? ==> forall k :: 0 <= k < |ranges.ranges| ==> 0 <= ranges.ranges[k].0 && ranges.ranges[k].1 <= fileLength - 1
  }

  /**
   * On the pairs Spring produces, a served range lies inside a non-empty file,
   * so the percentage that `handleRangeRequest` logs never divides by zero; a
   * single range of an empty file is always the 416 that reports the length.
   */
  lemma SpringRangeInsideFile(fileLength: int, ranges: RangeParse)
    requires fileLength >= 0 && SpringRanges(fileLength, ranges)
    ensures var o := RangeDecision(fileLength, ranges);
      o.Partial? ==> 0 <= o.start <= o.end < fileLength && fileLength > 0
    ensures fileLength == 0 && ranges.Parsed? && |ranges.ranges| == 1 ==>
      RangeDecision(fileLength, ranges) == NotSatisfiable(true)
  {
    if ranges.Parsed? && |ranges.ranges| == 1 {
      assert 0 <= ranges.ranges[0].0 && ranges.ranges[0].1 <= fileLength - 1;
    }
  }

  /** `bytes first-last/complete-length`. */
  function SatisfiedRange(start: int, end: int, fileLength: int): string
  {
    "bytes " + IntToString(start) + "-" + IntToString(end) + "/" + IntToString(fileLength)
  }

  // `bytes */complete-length`.
  function UnsatisfiedRange(fileLength: int): string
  {
    "bytes */" + IntToString(fileLength)
  }

  /** The headers of a served range: its `Content-Range`, and its length as the only `Content-Length`. */
  function ServedHeaders(h: Headers, start: int, end: int, fileLength: int): Headers
  {
    With(h, ContentRange, SatisfiedRange(start, end, fileLength))[ContentLength := [IntToString(end - start + 1)]]
  }

  /** The headers once `handleRangeRequest` has added what the decision calls for. */
  function RangeHeaders(h: Headers, fileLength: int, ranges: RangeParse): Headers
  {
    match RangeDecision(fileLength, ranges)
    case NotSatisfiable(true) => With(h, ContentRange, UnsatisfiedRange(fileLength))
    case Partial(start, end) => ServedHeaders(h, start, end, fileLength)
    case _ => h
  }

  /** The response of `handleRangeRequest` for the headers `h` collected so far. */
  function RangeResponse(path: Path, h: Headers, mime: string, fileLength: int, ranges: RangeParse): Response
  {
    match RangeDecision(fileLength, ranges)
    case BadRange => Bare(400)
    case NotSatisfiable(false) => Bare(416)
    case NotSatisfiable(true) => Response(416, RangeHeaders(h, fileLength, ranges), NoBody)
    case Partial(start, end) =>
      Response(206, RangeHeaders(h, fileLength, ranges)[ContentType := [mime]], FileRange(path, start, end - start + 1))
  }


  /**
   * 400 and 416 for the rejected cases, with `h` kept only on the 416 of a
   * range outside the file; 206 with the range's position and length otherwise.
   */
  lemma RangeResponseSpec(path: Path, h: Headers, mime: string, fileLength: int, ranges: RangeParse)
    ensures var r := RangeResponse(path, h, mime, fileLength, ranges);
      && (r.status == 206 || r.status == 400 || r.status == 416)
      && var o := RangeDecision(fileLength, ranges);
      && (o.BadRange? ==> r == Bare(400))
      && (o == NotSatisfiable(false) ==> r == Bare(416))
      && (o == NotSatisfiable(true) ==>
            r.status == 416 && r.body == NoBody && r.headers == With(h, ContentRange, UnsatisfiedRange(fileLength)))
      && (o.Partial? ==>
            && r.status == 206
            && r.body == FileRange(path, o.start, o.end - o.start + 1)
            && Values(r.headers, ContentRange) == Values(h, ContentRange) + [SatisfiedRange(o.start, o.end, fileLength)]
            && Values(r.headers, ContentLength) == [IntToString(o.end - o.start + 1)]
            && Values(r.headers, ContentType) == [mime])
  {
  }

  lemma RangeRejected(path: Path, h: Headers, mime: string, fileLength: int, ranges: RangeParse)
    requires ranges.Unparsable? || |ranges.ranges| != 1
    ensures RangeHeaders(h, fileLength, ranges) == h
    ensures RangeResponse(path, h, mime, fileLength, ranges) == Bare(if ranges.Unparsable? then 400 else 416)
  {
  }

  lemma RangeUnsatisfiable(path: Path, h: Headers, mime: string, fileLength: int, ranges: RangeParse)
    requires RangeDecision(fileLength, ranges) == NotSatisfiable(true)
    ensures RangeHeaders(h, fileLength, ranges) == With(h, ContentRange, UnsatisfiedRange(fileLength))
    ensures RangeResponse(path, h, mime, fileLength, ranges) ==
      Response(416, With(h, ContentRange, UnsatisfiedRange(fileLength)), NoBody)
  {
  }

  lemma RangePartial(path: Path, h: Headers, mime: string, fileLength: int, ranges: RangeParse, start: int, end: int)
    requires RangeDecision(fileLength, ranges) == Partial(start, end)
    ensures RangeHeaders(h, fileLength, ranges) == ServedHeaders(h, start, end, fileLength)
    ensures RangeResponse(path, h, mime, fileLength, ranges) ==
      Response(206, ServedHeaders(h, start, end, fileLength)[ContentType := [mime]], FileRange(path, start, end - start + 1))
  {
  }

  /** A served range leaves every header other than the range, the length and the type as it was. */
  lemma RangeKeeps(path: Path, h: Headers, mime: string, fileLength: int, ranges: RangeParse, n: HeaderName)
    requires RangeDecision(fileLength, ranges).Partial?
    requires n != ContentRange && n != ContentLength && n != ContentType
    ensures Values(RangeResponse(path, h, mime, fileLength, ranges).headers, n) == Values(h, n)
  {
    var o := RangeDecision(fileLength, ranges);
    RangePartial(path, h, mime, fileLength, ranges, o.start, o.end);
  }

  /** `handleRangeRequest`: fills `headers` as the decision calls for and answers with the matching response. */
  method HandleRangeRequest(path: Path, headers: HttpHeaders, mime: string, fileLength: int, ranges: RangeParse)
    returns (r: Response)
    modifies headers
    ensures headers.entries == RangeHeaders(old(headers.entries), fileLength, ranges)
    ensures r == RangeResponse(path, old(headers.entries), mime, fileLength, ranges)
  {
    ghost var h := headers.entries;
    if ranges.Unparsable? {
      RangeRejected(path, h, mime, fileLength, ranges);
      return Bare(400);
    }
    var rs := ranges.ranges;
    if |rs| != 1 {
      RangeRejected(path, h, mime, fileLength, ranges);
      return Bare(416);
    }
    var start, end := rs[0].0, rs[0].1;
    var rangeLength := end - start + 1;
    if start >= fileLength || end >= fileLength || start > end {
      assert RangeDecision(fileLength, ranges) == NotSatisfiable(true);
      RangeUnsatisfiable(path, h, mime, fileLength, ranges);
      headers.Add(ContentRange, UnsatisfiedRange(fileLength));
      return Response(416, headers.entries, NoBody);
    }
    assert RangeDecision(fileLength, ranges) == Partial(start, end);
    RangePartial(path, h, mime, fileLength, ranges, start, end);
    headers.Add(ContentRange, SatisfiedRange(start, end, fileLength));
    headers.Set(ContentLength, IntToString(rangeLength));
    assert headers.entries == ServedHeaders(h, start, end, fileLength);
    r := Response(206, headers.entries[ContentType := [mime]], FileRange(path, start, rangeLength));
  }

  /** The headers `createPlayResponse` sets before it looks at the Range header. */
  function PlayHeaders(encodedName: string, now: int): (h: Headers)
    ensures Values(h, ContentDisposition) == ["inline; filename=\"" + encodedName + "\""]
    ensures Values(h, AcceptRanges) == ["bytes"] && Values(h, CacheControl) == ["public, max-age=3600"]
    ensures Values(h, Expires) == [IntToString(now + 3600000)]
    ensures Values(h, ContentRange) == [] && Values(h, ContentType) == [] && Values(h, ContentLength) == []
    ensures Values(h, Pragma) == []
  {
    var h0: Headers := map[];
    var h1 := With(h0, ContentDisposition, "inline; filename=\"" + encodedName + "\"");
    var h2 := With(h1, AcceptRanges, "bytes");
    var h3 := With(h2, CacheControl, "public, max-age=3600");
    With(h3, Expires, IntToString(now + 3600000))
  }

  /** The first four headers of `createPlayResponse`, added to a fresh `HttpHeaders`. */
  method NewPlayHeaders(encodedName: string, now: int) returns (headers: HttpHeaders)
    ensures fresh(headers) && headers.entries == PlayHeaders(encodedName, now)
  {
    headers := new HttpHeaders();
    headers.Add(ContentDisposition, "inline; filename=\"" + encodedName + "\"");
    headers.Add(AcceptRanges, "bytes");
    headers.Add(CacheControl, "public, max-age=3600");
    headers.Add(Expires, IntToString(now + 3600000));
  }

  /** How `createPlayResponse` serves a readable file once its headers `h` are set. */
  function Serve(path: Path, h: Headers, mime: string, fileLength: int, hasRange: bool, ranges: RangeParse): Response
  {
    if hasRange then RangeResponse(path, h, mime, fileLength, ranges)
    else Ok(h, fileLength, mime, WholeFile(path))
  }

  /**
   * Serving with the playback headers: the whole file with status 200 without
   * a Range header, the range decision's answer with one; the playback headers
   * are kept on every 200 and 206.
   */
  lemma ServeSpec(path: Path, name: string, now: int, mime: string, fileLength: int, hasRange: bool, ranges: RangeParse)
    ensures var r := Serve(path, PlayHeaders(name, now), mime, fileLength, hasRange, ranges);
      && (r.status == 200 <==> !hasRange)
      && (hasRange ==> r == RangeResponse(path, PlayHeaders(name, now), mime, fileLength, ranges))
      && (r.status == 200 || r.status == 206 ==>
        && Values(r.headers, AcceptRanges) == ["bytes"]
        && Values(r.headers, CacheControl) == ["public, max-age=3600"]
        && Values(r.headers, ContentDisposition) == ["inline; filename=\"" + name + "\""]
        && Values(r.headers, ContentType) == [mime])
      && (r.status == 200 ==>
        && r.body == WholeFile(path)
        && Values(r.headers, ContentLength) == [IntToString(fileLength)])
  {
    var h := PlayHeaders(name, now);
    RangeResponseSpec(path, h, mime, fileLength, ranges);
    if hasRange && RangeDecision(fileLength, ranges).Partial? {
      RangeKeeps(path, h, mime, fileLength, ranges, AcceptRanges);
      RangeKeeps(path, h, mime, fileLength, ranges, CacheControl);
      RangeKeeps(path, h, mime, fileLength, ranges, ContentDisposition);
    }
  }

  /** What `createPlayResponse` answers. */
  function PlayResponse(fs: FileSystem, path: Path, title: Option<string>, singer: Option<string>,
                        fileType: Option<string>, rangeHeader: Option<string>, ranges: RangeParse,
                        now: int, encode: string -> string): Response
  {
    if !Exists(fs, path) || !CanRead(fs, path) then Bare(404)
    else if fileType.None? then Bare(500)
    else Serve(path, PlayHeaders(encode(SafeFileName(title, singer, fileType)), now),
               MimeType(fileType.value), Length(fs, path), HasText(rangeHeader), ranges)
  }

  /**
   * `createPlayResponse(file, music, request)`: 404 for a missing or
   * unreadable file; otherwise inline playback headers that allow byte ranges
   * and an hour of caching, named after the safe file name. A null file type
   * makes the MIME switch throw, which is caught and answered with 500. With a
   * Range header that has text the range decision answers; without one the
   * whole file is sent with its length.
   */
  lemma PlayResponseSpec(fs: FileSystem, path: Path, title: Option<string>, singer: Option<string>,
                         fileType: Option<string>, rangeHeader: Option<string>, ranges: RangeParse,
                         now: int, encode: string -> string)
    ensures var r := PlayResponse(fs, path, title, singer, fileType, rangeHeader, ranges, now, encode);
      && (r.status == 404 <==> !Exists(fs, path) || !CanRead(fs, path))
      && (r.status == 500 <==> Exists(fs, path) && CanRead(fs, path) && fileType.None?)
      && (r.status == 404 || r.status == 500 ==> r == Bare(r.status))
      && (r.status != 404 && r.status != 500 ==>
            r == Serve(path, PlayHeaders(encode(SafeFileName(title, singer, fileType)), now),
                       MimeType(fileType.value), Length(fs, path), HasText(rangeHeader), ranges))
  {
    if Exists(fs, path) && CanRead(fs, path) && fileType.Some? {
      var name := encode(SafeFileName(title, singer, fileType));
      var mime := MimeType(fileType.value);
      ServeSpec(path, name, now, mime, Length(fs, path), HasText(rangeHeader), ranges);
      RangeResponseSpec(path, PlayHeaders(name, now), mime, Length(fs, path), ranges);
    }
  }

  /** `createPlayResponse`, filling its `HttpHeaders` step by step. */
  method CreatePlayResponse(fs: FileSystem, path: Path, title: Option<string>, singer: Option<string>,
                            fileType: Option<string>, rangeHeader: Option<string>, ranges: RangeParse,
                            now: int, encode: string -> string)
    returns (r: Response)
    ensures r == PlayResponse(fs, path, title, singer, fileType, rangeHeader, ranges, now, encode)
  {
    if !Exists(fs, path) || !CanRead(fs, path) {
      return Bare(404);
    }
    var headers := NewPlayHeaders(encode(SafeFileName(title, singer, fileType)), now);
    if fileType.None? {
      return Bare(500);
    }
    var mime := MimeType(fileType.value);
    var fileLength := Length(fs, path);
    if HasText(rangeHeader) {
      r := HandleRangeRequest(path, headers, mime, fileLength, ranges);
      return;
    }
    r := Ok(headers.entries, fileLength, mime, WholeFile(path));
  }
}
