/** S3 key extraction and the two storage handlers that use it: the image
    proxy (GET, streams an object back) and the signed-URL issuer (POST,
    answers with a pre-signed link). Both handlers carry identical copies of
    `extractS3Key`; one definition models both. The URL parser, the S3 read
    and the URL signer are parameters. */
module S3Key {
  import Js
  import Strings
  import Security
  import Seqs

  const Bucket := "s3-ai-2025"

  /** The parts of a parsed URL that the extraction reads. */
  datatype UrlParts = UrlParts(hostname: string, pathname: string)

  datatype Extracted = Key(key: string) | Failed(message: string)

  /** `parts.filter(part => part.length > 0)` */
  function NonEmpty(parts: seq<string>): (r: seq<string>)
    ensures |r| <= |parts|
    ensures forall p | p in r :: p != "" && p in parts
    ensures forall p | p in parts && p != "" :: p in r
    ensures (forall p | p in parts :: p != "") ==> r == parts
    ensures Seqs.IsSubsequence(r, parts)
    ensures forall p :: multiset(r)[p] == if p == "" then 0 else multiset(parts)[p]
  {
    if |parts| == 0 then []
    else
      var rest := NonEmpty(parts[1..]);
      assert parts == [parts[0]] + parts[1..];
      assert multiset(parts) == multiset([parts[0]]) + multiset(parts[1..]);
      if parts[0] != "" then
        assert forall p | p in parts[1..] :: p in parts;
        assert multiset([parts[0]] + rest) == multiset([parts[0]]) + multiset(rest);
        [parts[0]] + rest
      else
        assert parts[0] in parts;
        rest
  }

  /** The error message of the Error that `extractS3Key` rethrows. */
  function InvalidS3Url(inner: string): string {
    "Invalid S3 URL: " + inner
  }

  /** The path segments of a path-style URL, empty ones dropped. */
  function Segments(pathname: string): seq<string> {
    NonEmpty(Strings.Split(pathname, '/'))
  }

  /** `extractS3Key`, given what the URL parser made of its argument (None
      when the parser throws). A hostname naming the bucket means a
      virtual-hosted URL; a hostname starting "s3." means a path-style URL
      whose first segment must be the bucket. */
  function ExtractS3Key(parsed: Js.Option<UrlParts>): (r: Extracted)
    ensures r.Failed? ==> Strings.StartsWith(r.message, "Invalid S3 URL")
    ensures r.Failed? ==> r.message in {InvalidS3Url("Invalid URL"), InvalidS3Url("Unrecognized S3 URL format")}
    ensures parsed.None? ==> r == Failed(InvalidS3Url("Invalid URL"))
    ensures parsed.Some? && Strings.Contains(parsed.value.hostname, Bucket) ==>
              r == Key(if parsed.value.pathname == "" then "" else parsed.value.pathname[1..])
    ensures r.Key? <==>
              parsed.Some? &&
              (|| Strings.Contains(parsed.value.hostname, Bucket)
               || (&& Strings.StartsWith(parsed.value.hostname, "s3.")
                   && |Segments(parsed.value.pathname)| > 0
                   && Segments(parsed.value.pathname)[0] == Bucket))
    ensures parsed.Some? && !Strings.Contains(parsed.value.hostname, Bucket) && r.Key? ==>
              && |Segments(parsed.value.pathname)| > 0
              && r.key == Strings.Join(Segments(parsed.value.pathname)[1..], "/")
  {
    match parsed
    case None => Failed(InvalidS3Url("Invalid URL"))
    case Some(url) =>
      if Strings.Contains(url.hostname, Bucket) then
        Key(if url.pathname == "" then "" else url.pathname[1..])
      else if Strings.StartsWith(url.hostname, "s3.") then
        var pathParts := Segments(url.pathname);
        if |pathParts| > 0 && pathParts[0] == Bucket then Key(Strings.Join(pathParts[1..], "/"))
        else Failed(InvalidS3Url("Unrecognized S3 URL format"))
      else Failed(InvalidS3Url("Unrecognized S3 URL format"))
  }

  /** A virtual-hosted URL `https://s3-ai-2025.s3.<region>.amazonaws.com/<key>`
      gives back its key. */
  lemma VirtualHostedRoundTrip(region: string, key: string)
    ensures ExtractS3Key(Js.Some(UrlParts(Bucket + ".s3." + region + ".amazonaws.com", "/" + key))) == Key(key)
  {
    var host := Bucket + ".s3." + region + ".amazonaws.com";
    assert host[0..|Bucket|] == Bucket;
    Strings.ContainsAt(host, Bucket, 0);
    assert ("/" + key)[1..] == key;
  }

  /** A path-style URL `https://s3.<region>.amazonaws.com/s3-ai-2025/<key>`
      whose key is made of non-empty segments gives back its key. */
  lemma PathStyleRoundTrip(hostname: string, segments: seq<string>)
    requires Strings.StartsWith(hostname, "s3.") && !Strings.Contains(hostname, Bucket)
    requires |segments| >= 1
    requires forall i | 0 <= i < |segments| :: segments[i] != "" && '/' !in segments[i]
    ensures ExtractS3Key(Js.Some(UrlParts(hostname, "/" + Bucket + "/" + Strings.Join(segments, "/"))))
            == Key(Strings.Join(segments, "/"))
  {
    PathSegments(Bucket, segments);
    assert ([Bucket] + segments)[1..] == segments;
  }

  /** The segments of `/<first>/<s1>/.../<sn>` are `first` and the `si`. */
  lemma PathSegments(first: string, segments: seq<string>)
    requires first != "" && '/' !in first
    requires forall i | 0 <= i < |segments| :: segments[i] != "" && '/' !in segments[i]
    requires |segments| >= 1
    ensures Segments("/" + first + "/" + Strings.Join(segments, "/")) == [first] + segments
  {
    var parts := [""] + ([first] + segments);
    JoinPath(first, segments);
    PathPartsLackSlash(first, segments);
    Strings.SplitJoin(parts, '/');
    assert parts[1..] == [first] + segments;
    assert NonEmpty(parts) == NonEmpty([first] + segments);
    assert forall p | p in [first] + segments :: p != "";
  }

  /** Joining `""`, `first` and the segments with '/' writes the path. */
  lemma JoinPath(first: string, segments: seq<string>)
    requires |segments| >= 1
    ensures Strings.Join([""] + ([first] + segments), "/") == "/" + first + "/" + Strings.Join(segments, "/")
  {
    var j := Strings.Join(segments, "/");
    var tail := [first] + segments;
    JoinCons(first, segments);
    JoinCons("", tail);
    assert "" + "/" == "/";
    Regroup("/", first, "/", j);
  }

  lemma Regroup(a: string, b: string, c: string, d: string)
    ensures a + (b + c + d) == a + b + c + d
  {
    assert b + c + d == b + (c + d);
    assert a + (b + (c + d)) == (a + b) + (c + d);
  }

  /** Joining with '/' puts one '/' after a leading part. */
  lemma JoinCons(x: string, rest: seq<string>)
    requires |rest| >= 1
    ensures Strings.Join([x] + rest, "/") == x + "/" + Strings.Join(rest, "/")
  {
    assert ([x] + rest)[1..] == rest;
  }

  lemma PathPartsLackSlash(first: string, segments: seq<string>)
    requires '/' !in first
    requires forall i | 0 <= i < |segments| :: '/' !in segments[i]
    ensures forall i | 0 <= i < |[""] + ([first] + segments)| :: '/' !in ([""] + ([first] + segments))[i]
  {
    var parts := [""] + ([first] + segments);
    forall i | 0 <= i < |parts|
      ensures '/' !in parts[i]
    {
      if i == 1 {
        assert parts[i] == first;
      } else if i > 1 {
        assert parts[i] == segments[i - 2];
      }
    }
  }

  /** A hostname that neither names the bucket nor starts with "s3." is
      refused whatever the path. */
  lemma ForeignHostRefused(url: UrlParts)
    requires !Strings.Contains(url.hostname, Bucket) && !Strings.StartsWith(url.hostname, "s3.")
    ensures ExtractS3Key(Js.Some(url)) == Failed(InvalidS3Url("Unrecognized S3 URL format"))
  {
  }

  // ---------------------------------------------------------------------
  // Error message to status

  /** The proxy's catch block: 'NoSuchKey' 404, then 'credentials' 503, then
      'Invalid S3 URL' 400, else 500. */
  function ProxyErrorStatus(message: string): (s: int)
    ensures s in {404, 503, 400, 500}
    ensures s == 404 <==> Strings.Contains(message, "NoSuchKey")
    ensures s == 503 <==> !Strings.Contains(message, "NoSuchKey") && Strings.Contains(message, "credentials")
    ensures s == 400 <==>
              && !Strings.Contains(message, "NoSuchKey") && !Strings.Contains(message, "credentials")
              && Strings.Contains(message, "Invalid S3 URL")
  {
    if Strings.Contains(message, "NoSuchKey") then 404
    else if Strings.Contains(message, "credentials") then 503
    else if Strings.Contains(message, "Invalid S3 URL") then 400
    else 500
  }

  /** The signer's catch block: 'credentials' 503, then 'Invalid S3 URL'
      400, else 500. */
  function SignedUrlErrorStatus(message: string): (s: int)
    ensures s in {503, 400, 500}
    ensures s == 503 <==> Strings.Contains(message, "credentials")
    ensures s == 400 <==> !Strings.Contains(message, "credentials") && Strings.Contains(message, "Invalid S3 URL")
  {
    if Strings.Contains(message, "credentials") then 503
    else if Strings.Contains(message, "Invalid S3 URL") then 400
    else 500
  }

  /** A message that starts 'Invalid S3 URL' and has no 'N' and no lower-case
      's' contains neither 'NoSuchKey' nor 'credentials': both handlers
      answer it with 400. */
  lemma {:induction false} InvalidUrlMessageIs400(m: string)
    requires 'N' !in m && 's' !in m && Strings.StartsWith(m, "Invalid S3 URL")
    ensures ProxyErrorStatus(m) == 400 && SignedUrlErrorStatus(m) == 400
  {
    Strings.ContainsCarriesChars(m, "NoSuchKey", 'N');
    Strings.ContainsCarriesChars(m, "credentials", 's');
    Strings.ContainsAt(m, "Invalid S3 URL", 0);
  }

  /** The extraction's error messages have no 'N' and no lower-case 's'. */
  lemma FailureMessageChars(m: string)
    requires m in {InvalidS3Url("Invalid URL"), InvalidS3Url("Unrecognized S3 URL format")}
    ensures 'N' !in m && 's' !in m
  {
  }

  /** A rethrown message whose inner part has no 'N' and no lower-case 's',
      as the failure of a conversion that throws, is answered with 400. */
  lemma ConversionFailureIs400(inner: string)
    requires 'N' !in inner && 's' !in inner
    ensures ProxyErrorStatus(InvalidS3Url(inner)) == 400 && SignedUrlErrorStatus(InvalidS3Url(inner)) == 400
  {
    var m := InvalidS3Url(inner);
    assert m[..|"Invalid S3 URL"|] == "Invalid S3 URL";
    assert forall i | 0 <= i < |m| :: m[i] in "Invalid S3 URL: " || m[i] in inner;
    InvalidUrlMessageIs400(m);
  }

  /** Whatever makes the extraction fail, both handlers answer 400. */
  lemma ExtractionFailureIs400(parsed: Js.Option<UrlParts>)
    requires ExtractS3Key(parsed).Failed?
    ensures ProxyErrorStatus(ExtractS3Key(parsed).message) == 400
    ensures SignedUrlErrorStatus(ExtractS3Key(parsed).message) == 400
  {
    FailureMessageChars(ExtractS3Key(parsed).message);
    InvalidUrlMessageIs400(ExtractS3Key(parsed).message);
  }

  /** `extractS3Key(s3Url)` on a request value: `new URL(s3Url)` converts the
      value to a string first, and a conversion that throws is caught and
      rethrown like a URL that does not parse. */
  function ExtractFromValue(v: Js.Value, parse: string -> Js.Option<UrlParts>): (r: Extracted)
    ensures Js.ToStrThrows(v) ==> r == Failed(InvalidS3Url("Cannot convert object to primitive value"))
    ensures !Js.ToStrThrows(v) ==> r == ExtractS3Key(parse(Js.ToStr(v)))
    ensures r.Failed? ==>
              r.message in {InvalidS3Url("Invalid URL"), InvalidS3Url("Unrecognized S3 URL format"),
                            InvalidS3Url("Cannot convert object to primitive value")}
  {
    if Js.ToStrThrows(v) then Failed(InvalidS3Url("Cannot convert object to primitive value"))
    else ExtractS3Key(parse(Js.ToStr(v)))
  }

  /** Whatever makes the extraction of a request value fail, both handlers
      answer 400. */
  lemma ValueExtractionFailureIs400(v: Js.Value, parse: string -> Js.Option<UrlParts>)
    requires ExtractFromValue(v, parse).Failed?
    ensures ProxyErrorStatus(ExtractFromValue(v, parse).message) == 400
    ensures SignedUrlErrorStatus(ExtractFromValue(v, parse).message) == 400
  {
    if Js.ToStrThrows(v) {
      ConversionFailureIs400("Cannot convert object to primitive value");
    } else {
      ExtractionFailureIs400(parse(Js.ToStr(v)));
    }
  }

  // ---------------------------------------------------------------------
  // The image proxy

  /** What S3 answered for a key: the object's content type ("" when S3
      gives none) and byte count, or the message of the error it raised. */
  datatype S3Read = Object(contentType: string, length: nat) | ReadFailed(message: string)

  datatype ProxyReply =
    | Image(contentType: string, length: nat, cacheControl: string, allowOrigin: string)
    | ProxyError(status: int, error: string)

  /** `proxyImageHandler`: method and parameter guards, then extraction and
      the S3 read; `parse` is the URL parser and `read` the S3 GetObject
      call. */
  function ProxyImage(verb: string, query: Js.Object, parse: string -> Js.Option<UrlParts>,
                      read: string -> S3Read): (r: ProxyReply)
    ensures verb != "GET" ==> r == ProxyError(405, "Method not allowed")
    ensures verb == "GET" && !Js.Truthy(Js.Get(query, "s3Url")) ==> r == ProxyError(400, "Missing s3Url parameter")
    ensures r.Image? ==>
              && verb == "GET"
              && var e := ExtractFromValue(Js.Get(query, "s3Url"), parse);
              && e.Key?
              && read(e.key).Object?
              && r.length == read(e.key).length
              && r.contentType == (if read(e.key).contentType == "" then "image/png" else read(e.key).contentType)
              && r.cacheControl == "public, max-age=31536000" && r.allowOrigin == "*"
    ensures r.Image? <==>
              && verb == "GET" && Js.Truthy(Js.Get(query, "s3Url"))
              && var e := ExtractFromValue(Js.Get(query, "s3Url"), parse);
              && e.Key? && read(e.key).Object?
    ensures r.ProxyError? ==> r.status in {405, 400, 404, 503, 500}
    ensures verb == "GET" && Js.Truthy(Js.Get(query, "s3Url")) &&
            ExtractFromValue(Js.Get(query, "s3Url"), parse).Failed? ==>
              r == ProxyError(400, "Invalid S3 URL format")
    ensures (&& verb == "GET" && Js.Truthy(Js.Get(query, "s3Url"))
             && ExtractFromValue(Js.Get(query, "s3Url"), parse).Key?
             && read(ExtractFromValue(Js.Get(query, "s3Url"), parse).key).ReadFailed?)
            ==> r == ProxyFailure(read(ExtractFromValue(Js.Get(query, "s3Url"), parse).key).message)
  {
    if verb != "GET" then ProxyError(405, "Method not allowed")
    else
      var s3Url := Js.Get(query, "s3Url");
      if !Js.Truthy(s3Url) then ProxyError(400, "Missing s3Url parameter")
      else
        match ExtractFromValue(s3Url, parse)
        case Failed(message) =>
          ValueExtractionFailureIs400(s3Url, parse);
          ProxyFailure(message)
        case Key(key) =>
          match read(key)
          case Object(contentType, length) =>
            Image(if contentType == "" then "image/png" else contentType, length,
                  "public, max-age=31536000", "*")
          case ReadFailed(message) => ProxyFailure(message)
  }

  function ProxyFailure(message: string): (r: ProxyReply)
    ensures r.ProxyError? && r.status == ProxyErrorStatus(message)
  {
    var status := ProxyErrorStatus(message);
    ProxyError(status,
      if status == 404 then "Image not found"
      else if status == 503 then "Storage service temporarily unavailable"
      else if status == 400 then "Invalid S3 URL format"
      else "Failed to proxy image")
  }

  // ---------------------------------------------------------------------
  // The signed-URL issuer

  /** Seven days in seconds. */
  const SignedUrlLifetime := 7 * 24 * 60 * 60

  datatype Signing = Signed(url: string) | SignFailed(message: string)

  datatype SignedUrlReply =
    | SignedUrlOk(signedUrl: string, s3Key: string, expiresIn: int)
    | SignedUrlError(status: int, error: string)

  function SignedUrlFailure(message: string): (r: SignedUrlReply)
    ensures r.SignedUrlError? && r.status == SignedUrlErrorStatus(message)
  {
    var status := SignedUrlErrorStatus(message);
    SignedUrlError(status,
      if status == 503 then "Storage service temporarily unavailable"
      else if status == 400 then "Invalid S3 URL format"
      else "Failed to generate signed URL")
  }

  /** `getSignedUrlHandler`: POST only, `s3Url` checked by `validateRequired`
      (whose error falls through to 500), extraction, then signing with the
      seven-day lifetime; `sign` is the presigner. */
  function GetSignedUrl(verb: string, body: Js.Object, parse: string -> Js.Option<UrlParts>,
                        sign: (string, int) -> Signing): (r: SignedUrlReply)
    ensures verb != "POST" ==> r == SignedUrlError(405, "Method not allowed")
    ensures r.SignedUrlOk? ==>
              && verb == "POST"
              && Security.ValidateRequired(body, ["s3Url"]).None?
              && var e := ExtractFromValue(Js.Get(body, "s3Url"), parse);
              && e.Key? && r.s3Key == e.key
              && sign(e.key, SignedUrlLifetime) == Signed(r.signedUrl)
              && r.expiresIn == 604800
    ensures r.SignedUrlOk? <==>
              && verb == "POST"
              && Security.ValidateRequired(body, ["s3Url"]).None?
              && var e := ExtractFromValue(Js.Get(body, "s3Url"), parse);
              && e.Key? && sign(e.key, SignedUrlLifetime).Signed?
    ensures r.SignedUrlError? ==> r.status in {405, 503, 400, 500}
    ensures verb == "POST" && Security.ValidateRequired(body, ["s3Url"]).Some? ==>
              r == SignedUrlFailure(Security.ValidateRequired(body, ["s3Url"]).value)
    ensures verb == "POST" && Security.ValidateRequired(body, ["s3Url"]).None? &&
            ExtractFromValue(Js.Get(body, "s3Url"), parse).Failed? ==>
              r == SignedUrlError(400, "Invalid S3 URL format")
    ensures (&& verb == "POST" && Security.ValidateRequired(body, ["s3Url"]).None?
             && ExtractFromValue(Js.Get(body, "s3Url"), parse).Key?
             && sign(ExtractFromValue(Js.Get(body, "s3Url"), parse).key, SignedUrlLifetime).SignFailed?)
            ==> r == SignedUrlFailure(sign(ExtractFromValue(Js.Get(body, "s3Url"), parse).key, SignedUrlLifetime).message)
  {
    if verb != "POST" then SignedUrlError(405, "Method not allowed")
    else
      match Security.ValidateRequired(body, ["s3Url"])
      case Some(message) => SignedUrlFailure(message)
      case None =>
        var s3Url := Js.Get(body, "s3Url");
        match ExtractFromValue(s3Url, parse)
        case Failed(message) =>
          ValueExtractionFailureIs400(s3Url, parse);
          SignedUrlFailure(message)
        case Key(key) =>
          match sign(key, SignedUrlLifetime)
          case Signed(url) => SignedUrlOk(url, key, SignedUrlLifetime)
          case SignFailed(message) => SignedUrlFailure(message)
  }

  /** 'c' is never directly followed by 'r' in `m`. */
  predicate NoCr(m: string) {
    forall i | 0 <= i < |m| - 1 :: !(m[i] == 'c' && m[i + 1] == 'r')
  }

  /** A message without 'I', and lacking 'c' or 's' or any 'c' followed by
      'r', contains neither 'credentials' nor 'Invalid S3 URL': the signer
      answers it with 500. */
  lemma {:induction false} UnrelatedMessageIs500(m: string)
    requires 'I' !in m
    requires 'c' !in m || 's' !in m || NoCr(m)
    ensures SignedUrlErrorStatus(m) == 500
  {
    Strings.ContainsCarriesChars(m, "Invalid S3 URL", 'I');
    Strings.ContainsCarriesChars(m, "credentials", 'c');
    Strings.ContainsCarriesChars(m, "credentials", 's');
    Strings.ContainsCarriesPair(m, "credentials");
  }

  /** A string without 'c' followed by one without "cr" has no "cr". */
  lemma NoCrAppend(a: string, b: string)
    requires 'c' !in a && NoCr(b)
    ensures NoCr(a + b)
  {
    forall i | 0 <= i < |a + b| - 1
      ensures !((a + b)[i] == 'c' && (a + b)[i + 1] == 'r')
    {
      if i < |a| {
        assert (a + b)[i] == a[i];
      } else {
        assert (a + b)[i] == b[i - |a|] && (a + b)[i + 1] == b[i + 1 - |a|];
      }
    }
  }

  /** The TypeError of calling an own "toString" has no "cr". */
  lemma CallErrorNoCr(m: string)
    requires m == "obj[field].toString is not a function"
    ensures 'I' !in m && NoCr(m)
  {
    var head := "obj[field].toString is not a fun";
    assert m == head + "ction";
    assert 'c' !in head;
    assert NoCr("ction");
    NoCrAppend(head, "ction");
  }

  /** The message of a single missing field lacks 'c' and 'I' when the
      field's name does: the signer answers it with 500. */
  lemma MissingFieldMessageIs500(field: string)
    requires 'c' !in field && 'I' !in field
    ensures SignedUrlErrorStatus("Missing required fields: " + field) == 500
  {
    var prefix := "Missing required fields: ";
    var m := prefix + field;
    assert 'c' !in prefix && 'I' !in prefix;
    UnrelatedMessageIs500(m);
  }

  /** An `s3Url` whose presence check throws (an object with its own
      "toString", or an array holding one) is refused with 500: the
      TypeError names neither credentials nor an invalid URL. */
  lemma ThrowingSignedUrlIs500(body: Js.Object, parse: string -> Js.Option<UrlParts>,
                               sign: (string, int) -> Signing)
    requires Security.CheckThrows(body, "s3Url")
    ensures GetSignedUrl("POST", body, parse, sign) == SignedUrlError(500, "Failed to generate signed URL")
  {
    Security.OneFieldThrows(body, "s3Url");
    CheckErrorIs500(Js.Get(body, "s3Url"));
    ValidationErrorIsFinal(body, parse, sign);
  }

  /** Both TypeErrors of the presence check are answered with 500. */
  lemma CheckErrorIs500(v: Js.Value)
    ensures SignedUrlErrorStatus(Security.CheckError(v)) == 500
  {
    var m := Security.CheckError(v);
    if v.Obj? {
      CallErrorNoCr(m);
    } else {
      assert 'I' !in m && 's' !in m;
    }
    UnrelatedMessageIs500(m);
  }

  /** A validation error that the signer's catch block answers with 500 is
      the reply, whatever the extraction and the signer would do. */
  lemma ValidationErrorIsFinal(body: Js.Object, parse: string -> Js.Option<UrlParts>,
                               sign: (string, int) -> Signing)
    requires Security.ValidateRequired(body, ["s3Url"]).Some?
    requires SignedUrlErrorStatus(Security.ValidateRequired(body, ["s3Url"]).value) == 500
    ensures GetSignedUrl("POST", body, parse, sign) == SignedUrlError(500, "Failed to generate signed URL")
  {
  }

  /** A missing or blank `s3Url` is refused with 500, not 400. */
  lemma MissingSignedUrlIs500(body: Js.Object, parse: string -> Js.Option<UrlParts>,
                              sign: (string, int) -> Signing)
    requires Security.IsMissing(body, "s3Url")
    ensures GetSignedUrl("POST", body, parse, sign) == SignedUrlError(500, "Failed to generate signed URL")
  {
    Security.OneFieldMissing(body, "s3Url");
    MissingFieldMessageIs500("s3Url");
    ValidationErrorIsFinal(body, parse, sign);
  }
}
