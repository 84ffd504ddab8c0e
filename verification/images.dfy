/** Image resolution for the compositor: blob-token lookup among the uploaded
    files, the `blob:` / `http(s)://` / local-path classification, the download
    acceptance check, the magic-number format test with its converted-file
    naming rule, and the per-render cache keyed by the reference string.
    Everything the source delegates to a library (HTTP client, transcoder,
    decoder, `path.resolve`, the dated blob path, the sticker domain) is a
    field of `Env`. */
module Images {

  import opened Wrappers
  import opened Strings
  import opened Geometry
  import opened Scene

  newtype byte = x: int | 0 <= x < 256

  datatype ImageError =
    | ReferenceNotFound
    | DownloadFailed
    | FileNotFound
    | UnsupportedFormat
    | DecodeFailed

  /** What an HTTP GET produced: a transport or status failure (the client
      throws on non-2xx), or a response with its declared content type. */
  datatype FetchResponse = FetchFailed | Fetched(contentType: Option<string>, body: seq<byte>)

  /** The outside world of one render. */
  datatype Env = Env(
    files: seq<UploadedFile>,
    fs: map<string, seq<byte>>,
    fetch: string -> FetchResponse,
    transcode: seq<byte> -> Option<seq<byte>>,
    decode: seq<byte> -> Option<Bitmap>,
    resolvePath: string -> string,
    blobPathByDate: string -> string,
    stickerDomain: string,
    clockStamp: string,
    parseFloat: string -> Option<real>)

  // ---------------------------------------------------------------------
  // Blob tokens

  /** `path.basename(url).slice(1)`: the last segment of a blob URL without
      its first character. */
  function BlobToken(url: string): (r: string)
    ensures '/' !in r
    ensures |Basename(url)| > 0 ==> r == Basename(url)[1..]
  {
    var b := Basename(url);
    if |b| == 0 then "" else b[1..]
  }

  /** `files.find(f => f.originalname.includes(token))`: the first match. */
  function FindUpload(files: seq<UploadedFile>, token: string): (r: Option<UploadedFile>)
    ensures r.None? <==> forall i :: 0 <= i < |files| ==> !Contains(files[i].originalname, token)
    ensures r.Some? ==> exists i :: (0 <= i < |files| && files[i] == r.value
      && Contains(r.value.originalname, token)
      && forall j :: 0 <= j < i ==> !Contains(files[j].originalname, token))
  {
    if |files| == 0 then None
    else if Contains(files[0].originalname, token) then Some(files[0])
    else
      var r := FindUpload(files[1..], token);
      if r.Some? then
        var i :| 0 <= i < |files[1..]| && files[1..][i] == r.value
          && Contains(r.value.originalname, token)
          && forall j :: 0 <= j < i ==> !Contains(files[1..][j].originalname, token);
        assert files[i + 1] == r.value;
        r
      else r
  }

  /** `toStoredURL` of the compositor: a `blob:` URL with a matching upload
      becomes that upload's dated storage path; any other `blob:` URL is kept;
      a non-blob URL gets the sticker domain prefix when `isSticker`. */
  function CanvasStoredURL(url: string, isSticker: bool, env: Env): (r: string)
    ensures StartsWith(url, "blob:") && FindUpload(env.files, BlobToken(url)).None? ==> r == url
    ensures StartsWith(url, "blob:") && FindUpload(env.files, BlobToken(url)).Some? ==>
      r == env.blobPathByDate(FindUpload(env.files, BlobToken(url)).value.originalname)
    ensures !StartsWith(url, "blob:") && isSticker ==> r == env.stickerDomain + url
    ensures !StartsWith(url, "blob:") && !isSticker ==> r == url
  {
    if StartsWith(url, "blob:") then
      match FindUpload(env.files, BlobToken(url))
      case Some(file) => env.blobPathByDate(file.originalname)
      case None => url
    else if isSticker then env.stickerDomain + url
    else url
  }

  /** The prefix the source actually applies: the configuration object has
      no sticker-domain property, so the template literal inserts the text
      `undefined`. */
  const UndefinedStickerDomain: string := "undefined"

  /** As written, every non-blob element reference gets the `undefined`
      prefix and so is no longer a download, whatever it was: it is looked
      up as a local path. */
  lemma UndefinedDomainMakesElementsLocal(url: string, env: Env)
    requires env.stickerDomain == UndefinedStickerDomain
    requires !StartsWith(url, "blob:")
    ensures CanvasStoredURL(url, true, env) == UndefinedStickerDomain + url
    ensures Classify(CanvasStoredURL(url, true, env)) == LocalPath
  {
    var u := UndefinedStickerDomain + url;
    assert u[0] == 'u';
    assert !StartsWith(u, "blob:") && !StartsWith(u, "http://") && !StartsWith(u, "https://") by {
      assert "blob:"[0] == 'b' && "http://"[0] == 'h' && "https://"[0] == 'h';
    }
  }

  /** With a configured `http(s)` domain, a non-blob element reference is
      fetched from that domain: it classifies as a download of
      `domain + url`. */
  lemma ConfiguredDomainFetchesElements(url: string, env: Env)
    requires StartsWith(env.stickerDomain, "http://") || StartsWith(env.stickerDomain, "https://")
    requires !StartsWith(url, "blob:")
    ensures CanvasStoredURL(url, true, env) == env.stickerDomain + url
    ensures Classify(CanvasStoredURL(url, true, env)) == Remote
    ensures Locate(CanvasStoredURL(url, true, env), env).Success?
        <==> AcceptDownload(env.fetch(env.stickerDomain + url)).Success?
  {
    var d, u := env.stickerDomain, env.stickerDomain + url;
    if StartsWith(d, "http://") {
      assert u[..7] == d[..7];
    } else {
      assert u[..8] == d[..8];
    }
    assert !StartsWith(u, "blob:") by {
      assert u[0] == d[0] == 'h';
    }
  }

  // ---------------------------------------------------------------------
  // Format signature

  function HexDigit(d: byte): (c: char)
    requires d < 16
  {
    if d < 10 then ('0' as int + d as int) as char else ('a' as int + d as int - 10) as char
  }

  /** Lower-case hexadecimal of one byte. */
  function HexByte(b: byte): string {
    [HexDigit(b / 16), HexDigit(b % 16)]
  }

  function Hex(bs: seq<byte>): (r: string)
    ensures |r| == 2 * |bs|
  {
    if |bs| == 0 then "" else HexByte(bs[0]) + Hex(bs[1..])
  }

  /** `buffer.toString("hex", 0, 4)`: the hex of at most the first four bytes. */
  function Signature(bs: seq<byte>): string {
    if |bs| >= 4 then Hex(bs[..4]) else Hex(bs)
  }

  /** The test of `convertToSupportedFormat`, on the hex signature. */
  predicate NeedsConversion(bs: seq<byte>) {
    var signature := Signature(bs);
    signature == "52494646"            // RIFF (WebP)
    || StartsWith(signature, "0000001") // ISO-BMFF box header (AVIF)
    || signature == "3c3f786d"          // "<?xm" (SVG with XML prolog)
    || signature == "3c737667"          // "<svg"
  }

  /** The same test stated on the bytes themselves. */
  predicate ConversionSignature(bs: seq<byte>) {
    && |bs| >= 4
    && (|| bs[..4] == [0x52, 0x49, 0x46, 0x46]
        || (bs[0] == 0 && bs[1] == 0 && bs[2] == 0 && 0x10 <= bs[3] < 0x20)
        || bs[..4] == [0x3c, 0x3f, 0x78, 0x6d]
        || bs[..4] == [0x3c, 0x73, 0x76, 0x67])
  }

  lemma HexDigitInjective(x: byte, y: byte)
    requires x < 16 && y < 16 && HexDigit(x) == HexDigit(y)
    ensures x == y
  {
  }

  lemma HexByteInjective(x: byte, y: byte)
    requires HexByte(x) == HexByte(y)
    ensures x == y
  {
    assert HexByte(x)[0] == HexByte(y)[0] && HexByte(x)[1] == HexByte(y)[1];
    HexDigitInjective(x / 16, y / 16);
    HexDigitInjective(x % 16, y % 16);
  }

  /** Hex encoding is injective on byte strings of equal length. */
  lemma {:induction false} HexInjective(a: seq<byte>, b: seq<byte>)
    requires |a| == |b|
    ensures Hex(a) == Hex(b) <==> a == b
  {
    if |a| > 0 && Hex(a) == Hex(b) {
      assert Hex(a)[..2] == HexByte(a[0]) && Hex(b)[..2] == HexByte(b[0]);
      assert Hex(a)[2..] == Hex(a[1..]) && Hex(b)[2..] == Hex(b[1..]);
      HexByteInjective(a[0], b[0]);
      HexInjective(a[1..], b[1..]);
      assert a == [a[0]] + a[1..] && b == [b[0]] + b[1..];
    }
  }

  lemma {:induction false} HexSplit(a: seq<byte>, b: seq<byte>)
    ensures Hex(a + b) == Hex(a) + Hex(b)
  {
    if |a| > 0 {
      assert (a + b)[0] == a[0];
      assert (a + b)[1..] == a[1..] + b;
      HexSplit(a[1..], b);
      assert Hex(a + b) == HexByte(a[0]) + (Hex(a[1..]) + Hex(b));
    } else {
      assert a + b == b;
    }
  }

  /** The signature names a four-byte prefix exactly. */
  lemma SignatureIs(bs: seq<byte>, t: seq<byte>)
    requires |bs| >= 4 && |t| == 4
    ensures Signature(bs) == Hex(t) <==> bs[..4] == t
  {
    HexInjective(bs[..4], t);
  }

  /** The `0000001` prefix: three zero bytes and a high nibble of one. */
  lemma AvifPrefix(bs: seq<byte>)
    requires |bs| >= 4
    ensures StartsWith(Signature(bs), "0000001")
        <==> (bs[0] == 0 && bs[1] == 0 && bs[2] == 0 && 0x10 <= bs[3] < 0x20)
  {
    var four := bs[..4];
    var sig := Signature(bs);
    var a, x := Hex(four[..3]), HexDigit(four[3] / 16);
    assert four == four[..3] + [four[3]];
    HexSplit(four[..3], [four[3]]);
    assert Hex([four[3]]) == HexByte(four[3]);
    assert sig == a + HexByte(four[3]);
    assert sig[..7] == a + [x];
    assert "0000001" == "000000" + ['1'];
    AppendOneEq(a, x, "000000", '1');
    assert Hex([0, 0, 0]) == "000000";
    HexInjective(four[..3], [0, 0, 0]);
    assert four[..3] == [0, 0, 0] <==> bs[0] == 0 && bs[1] == 0 && bs[2] == 0;
    HighNibbleOne(four[3]);
  }

  lemma AppendOneEq(a: string, x: char, b: string, y: char)
    requires |a| == |b|
    ensures a + [x] == b + [y] <==> a == b && x == y
  {
    if a + [x] == b + [y] {
      assert (a + [x])[..|a|] == a && (b + [y])[..|b|] == b;
      assert (a + [x])[|a|] == x && (b + [y])[|b|] == y;
    }
  }

  lemma HighNibbleOne(d: byte)
    ensures HexDigit(d / 16) == '1' <==> 0x10 <= d < 0x20
  {
  }

  /** Conversion is required exactly for the RIFF, `00 00 00 1x`, `<?xm` and
      `<svg` signatures; shorter inputs never convert. */
  lemma NeedsConversionBySignature(bs: seq<byte>)
    ensures NeedsConversion(bs) <==> ConversionSignature(bs)
  {
    if |bs| >= 4 {
      assert Hex([0x52, 0x49, 0x46, 0x46]) == "52494646";
      assert Hex([0x3c, 0x3f, 0x78, 0x6d]) == "3c3f786d";
      assert Hex([0x3c, 0x73, 0x76, 0x67]) == "3c737667";
      SignatureIs(bs, [0x52, 0x49, 0x46, 0x46]);
      SignatureIs(bs, [0x3c, 0x3f, 0x78, 0x6d]);
      SignatureIs(bs, [0x3c, 0x73, 0x76, 0x67]);
      AvifPrefix(bs);
    } else {
      assert |Signature(bs)| < 7;
    }
  }

  /** PNG, JPEG and GIF files are decoded as they are. */
  lemma DirectFormatsAreKept(bs: seq<byte>)
    requires |bs| >= 4
    requires || bs[..4] == [0x89, 0x50, 0x4e, 0x47]
             || bs[..4] == [0xff, 0xd8, 0xff, 0xe0]
             || bs[..4] == [0xff, 0xd8, 0xff, 0xe1]
             || bs[..4] == [0x47, 0x49, 0x46, 0x38]
    ensures !NeedsConversion(bs)
  {
    NeedsConversionBySignature(bs);
    assert bs[0] == bs[..4][0] && bs[3] == bs[..4][3];
  }

  /** `imagePath.replace(/\.[^.]+$/, "_converted.png")`: the last dot and the
      non-empty tail after it become `_converted.png`; a path whose last dot
      is final, or that has no dot, is returned unchanged. */
  function ConvertedName(path: string): (r: string)
    ensures r == path <==> (forall i :: 0 <= i < |path| - 1 ==> path[i] != '.' || '.' in path[i + 1..])
    ensures r != path ==> (EndsWith(r, "_converted.png")
      && exists i :: 0 <= i < |path| - 1 && path[i] == '.' && '.' !in path[i + 1..] && r == path[..i] + "_converted.png")
  {
    match LastIndexOf(path, '.')
    case None => path
    case Some(i) =>
      if i + 1 < |path| then
        var r := path[..i] + "_converted.png";
        assert r[i] != path[i];
        assert r[|r| - |"_converted.png"|..] == "_converted.png";
        r
      else path
  }

  // ---------------------------------------------------------------------
  // Resolution

  /** `downloadRemoteImage`: the response must declare an `image/` content
      type and carry at least four bytes. */
  function AcceptDownload(response: FetchResponse): (r: Result<seq<byte>, ImageError>)
    ensures r.Success? <==> (response.Fetched?
      && response.contentType.Some? && StartsWith(response.contentType.value, "image/")
      && |response.body| >= 4)
    ensures r.Success? ==> r.value == response.body
    ensures r.Failure? ==> r.error == DownloadFailed
  {
    match response
    case FetchFailed => Failure(DownloadFailed)
    case Fetched(contentType, body) =>
      var declared := if contentType.Some? then OrString(contentType.value, "") else "";
      if !StartsWith(declared, "image/") then Failure(DownloadFailed)
      else if |body| < 4 then Failure(DownloadFailed)
      else Success(body)
  }

  /** Where a reference string is looked for. */
  datatype Origin = Upload | Remote | LocalPath

  function Classify(url: string): (o: Origin)
    ensures o == Upload <==> StartsWith(url, "blob:")
    ensures o == Remote <==> (!StartsWith(url, "blob:")
      && (StartsWith(url, "http://") || StartsWith(url, "https://")))
  {
    if StartsWith(url, "blob:") then Upload
    else if StartsWith(url, "http://") || StartsWith(url, "https://") then Remote
    else LocalPath
  }

  /** The temporary file a download is written to. */
  function TempPath(url: string, env: Env): string {
    "storage/temp/temp_" + env.clockStamp + "_" + Basename(url)
  }

  /** The existence check and read of a local file. */
  function ReadLocal(path: string, env: Env): (r: Result<(string, seq<byte>), ImageError>)
    ensures r.Success? <==> path in env.fs
  {
    if path in env.fs then Success((path, env.fs[path])) else Failure(FileNotFound)
  }

  /** The file a reference designates and its bytes. */
  function Locate(url: string, env: Env): (r: Result<(string, seq<byte>), ImageError>)
    ensures Classify(url) == Upload && FindUpload(env.files, BlobToken(url)).None? ==>
      r == Failure(ReferenceNotFound)
    ensures Classify(url) == Upload && FindUpload(env.files, BlobToken(url)).Some? ==>
      r == ReadLocal(FindUpload(env.files, BlobToken(url)).value.path, env)
    ensures Classify(url) == Remote ==>
      (r.Success? <==> AcceptDownload(env.fetch(url)).Success?)
    ensures Classify(url) == Remote && r.Success? ==>
      r.value == (TempPath(url, env), AcceptDownload(env.fetch(url)).value)
    ensures Classify(url) == LocalPath ==> r == ReadLocal(env.resolvePath(url), env)
  {
    match Classify(url)
    case Upload =>
      (match FindUpload(env.files, BlobToken(url))
       case None => Failure(ReferenceNotFound)
       case Some(file) => ReadLocal(file.path, env))
    case Remote =>
      (match AcceptDownload(env.fetch(url))
       case Failure(e) => Failure(e)
       case Success(body) => Success((TempPath(url, env), body)))
    case LocalPath => ReadLocal(env.resolvePath(url), env)
  }

  /** `convertToSupportedFormat` followed by the decoder's input: unsupported
      signatures are transcoded into the converted file (the transcoder refuses
      to write over its own input), the others are used as they are. */
  function ConvertToSupported(path: string, bytes: seq<byte>, env: Env): (r: Result<seq<byte>, ImageError>)
    ensures !NeedsConversion(bytes) ==> r == Success(bytes)
    ensures NeedsConversion(bytes) && ConvertedName(path) == path ==> r == Failure(UnsupportedFormat)
    ensures NeedsConversion(bytes) && ConvertedName(path) != path ==>
      (r.Success? <==> env.transcode(bytes).Some?) && (r.Success? ==> r.value == env.transcode(bytes).value)
    ensures r.Failure? ==> r.error == UnsupportedFormat
  {
    if !NeedsConversion(bytes) then Success(bytes)
    else if ConvertedName(path) == path then Failure(UnsupportedFormat)
    else
      match env.transcode(bytes)
      case None => Failure(UnsupportedFormat)
      case Some(png) => Success(png)
  }

  /** Resolving a reference without any cache. */
  function Resolve(url: string, env: Env): Result<Bitmap, ImageError> {
    match Locate(url, env)
    case Failure(e) => Failure(e)
    case Success(located) =>
      match ConvertToSupported(located.0, located.1, env)
      case Failure(e) => Failure(e)
      case Success(bytes) =>
        match env.decode(bytes)
        case None => Failure(DecodeFailed)
        case Some(image) => Success(image)
  }

  /** The bytes a reference stands for, by origin: an upload's file on disk,
      an accepted download's body, or the file the resolved local path names.
      `None` when there is no such upload, download or file. */
  function SourceBytes(url: string, env: Env): Option<seq<byte>> {
    if StartsWith(url, "blob:") then
      var found := FindUpload(env.files, BlobToken(url));
      if found.Some? && found.value.path in env.fs then Some(env.fs[found.value.path]) else None
    else if StartsWith(url, "http://") || StartsWith(url, "https://") then
      var response := env.fetch(url);
      if response.Fetched? && response.contentType.Some? && StartsWith(response.contentType.value, "image/")
         && |response.body| >= 4
      then Some(response.body)
      else None
    else if env.resolvePath(url) in env.fs then Some(env.fs[env.resolvePath(url)])
    else None
  }

  /** The decoder's verdict as a resolution result. */
  function Decoded(image: Option<Bitmap>): (r: Result<Bitmap, ImageError>)
    ensures r.Success? <==> image.Some?
    ensures r.Success? ==> r.value == image.value
    ensures r.Failure? ==> r.error == DecodeFailed
  {
    if image.Some? then Success(image.value) else Failure(DecodeFailed)
  }

  /** Locating succeeds exactly when the reference has source bytes, and
      then yields those bytes. */
  lemma LocateMatchesSource(url: string, env: Env)
    ensures Locate(url, env).Success? <==> SourceBytes(url, env).Some?
    ensures Locate(url, env).Success? ==> Locate(url, env).value.1 == SourceBytes(url, env).value
  {
  }

  /** End to end: a reference without source bytes fails before conversion;
      one whose bytes carry no conversion signature resolves to what the
      decoder makes of those bytes; a converted one resolves only to the
      decoding of the transcoder's output. */
  lemma ResolveFromSource(url: string, env: Env)
    ensures SourceBytes(url, env).None? ==>
      Resolve(url, env).Failure? && Resolve(url, env).error in {ReferenceNotFound, DownloadFailed, FileNotFound}
    ensures SourceBytes(url, env).Some? && !ConversionSignature(SourceBytes(url, env).value) ==>
      Resolve(url, env) == Decoded(env.decode(SourceBytes(url, env).value))
    ensures SourceBytes(url, env).Some? && ConversionSignature(SourceBytes(url, env).value)
            && Resolve(url, env).Success? ==>
      && env.transcode(SourceBytes(url, env).value).Some?
      && env.decode(env.transcode(SourceBytes(url, env).value).value) == Some(Resolve(url, env).value)
  {
    LocateMatchesSource(url, env);
    if SourceBytes(url, env).Some? {
      NeedsConversionBySignature(SourceBytes(url, env).value);
    } else {
      var l := Locate(url, env);
      assert l.Failure? && l.error in {ReferenceNotFound, DownloadFailed, FileNotFound};
    }
  }

  /** An accepted download always carries the four bytes the format test
      reads, so its signature is never cut short. */
  lemma AcceptedDownloadHasFullSignature(response: FetchResponse)
    requires AcceptDownload(response).Success?
    ensures |Signature(AcceptDownload(response).value)| == 8
  {
  }

  type Cache = map<string, Bitmap>

  /** `loadImage`: a cached reference is answered from the cache; otherwise
      the reference is resolved and, on success, cached under the original
      reference string. Failures are not cached. */
  function LoadImage(url: string, cache: Cache, env: Env): (r: (Result<Bitmap, ImageError>, Cache))
    ensures url in cache ==> r == (Success(cache[url]), cache)
    ensures url !in cache ==> r.0 == Resolve(url, env)
    ensures url !in cache && r.0.Success? ==> r.1 == cache[url := r.0.value]
    ensures r.0.Failure? ==> r.1 == cache
  {
    if url in cache then (Success(cache[url]), cache)
    else
      match Resolve(url, env)
      case Failure(e) => (Failure(e), cache)
      case Success(image) => (Success(image), cache[url := image])
  }

  /** Every cached image is what resolving its key yields. */
  ghost predicate Coherent(cache: Cache, env: Env) {
    forall u :: u in cache ==> Resolve(u, env) == Success(cache[u])
  }

  /** The cache is transparent: from a coherent cache, loading gives what
      resolution gives, and the cache stays coherent. */
  lemma LoadImageTransparent(url: string, cache: Cache, env: Env)
    requires Coherent(cache, env)
    ensures LoadImage(url, cache, env).0 == Resolve(url, env)
    ensures Coherent(LoadImage(url, cache, env).1, env)
  {
  }

  /** Loading the same reference twice resolves it at most once: the second
      load is a cache hit that returns the same image and changes nothing. */
  lemma SecondLoadIsCacheHit(url: string, cache: Cache, env: Env)
    requires LoadImage(url, cache, env).0.Success?
    ensures url in LoadImage(url, cache, env).1
    ensures LoadImage(url, LoadImage(url, cache, env).1, env)
         == (LoadImage(url, cache, env).0, LoadImage(url, cache, env).1)
  {
  }
}
