/** The local development server: its CORS middleware, the route table of
    the request callback, the static-file lookup, and its own simplified
    storage actions (signed URL and image proxy), which take the S3 key to
    be the last path segment of the URL. The quiz-option handling of its
    database actions is in QuizOptions. */
module DevServer {
  import Js
  import Strings
  import Http

  // ---------------------------------------------------------------------
  // CORS

  /** The ten origins the development server echoes back. */
  const DevOrigins: seq<string> := [
    "http://localhost:3008",
    "http://127.0.0.1:3008",
    "https://gesture-genius-64oeq4qp5-rickys-projects-c77239e3.vercel.app",
    "https://gesture-genius-c0wvptgb0-rickys-projects-c77239e3.vercel.app",
    "https://gesture-genius-f1pvs4ojp-rickys-projects-c77239e3.vercel.app",
    "https://gesture-genius-ppfli0yh7-rickys-projects-c77239e3.vercel.app",
    "https://gesture-genius-bo77rbvnp-rickys-projects-c77239e3.vercel.app",
    "https://gesture-genius-rog748qge-rickys-projects-c77239e3.vercel.app",
    "https://gesture-genius-gd1s4stri-rickys-projects-c77239e3.vercel.app",
    "https://gesture-genius-rch9hdtr3-rickys-projects-c77239e3.vercel.app"
  ]

  /** The header table after `cors`; `origin` is the request's Origin header
      (None when absent). */
  function WithCorsHeaders(h: map<string, string>, origin: Js.Option<string>): (r: map<string, string>)
    ensures origin.Some? && origin.value in DevOrigins ==>
              "Access-Control-Allow-Origin" in r && r["Access-Control-Allow-Origin"] == origin.value
    ensures !(origin.Some? && origin.value in DevOrigins) ==>
              ("Access-Control-Allow-Origin" in r <==> "Access-Control-Allow-Origin" in h) &&
              ("Access-Control-Allow-Origin" in h ==> r["Access-Control-Allow-Origin"] == h["Access-Control-Allow-Origin"])
    ensures "Access-Control-Allow-Methods" in r && r["Access-Control-Allow-Methods"] == "GET, POST, OPTIONS"
    ensures "Access-Control-Allow-Headers" in r && r["Access-Control-Allow-Headers"] == "Content-Type, X-API-Key"
    ensures "Access-Control-Max-Age" in r && r["Access-Control-Max-Age"] == "86400"
    ensures "Access-Control-Allow-Credentials" in r && r["Access-Control-Allow-Credentials"] == "false"
    ensures r.Keys == h.Keys + {"Access-Control-Allow-Methods", "Access-Control-Allow-Headers",
                                "Access-Control-Max-Age", "Access-Control-Allow-Credentials"} +
                      (if origin.Some? && origin.value in DevOrigins then {"Access-Control-Allow-Origin"} else {})
    ensures forall k | k in h && k !in CorsHeaderNames :: k in r && r[k] == h[k]
  {
    var h1 := if origin.Some? && origin.value in DevOrigins then h["Access-Control-Allow-Origin" := origin.value] else h;
    h1["Access-Control-Allow-Methods" := "GET, POST, OPTIONS"]
      ["Access-Control-Allow-Headers" := "Content-Type, X-API-Key"]
      ["Access-Control-Max-Age" := "86400"]
      ["Access-Control-Allow-Credentials" := "false"]
  }

  const CorsHeaderNames: set<string> := {
    "Access-Control-Allow-Origin", "Access-Control-Allow-Methods", "Access-Control-Allow-Headers",
    "Access-Control-Max-Age", "Access-Control-Allow-Credentials"}

  /** `cors(req, res)` */
  method Cors(res: Http.ServerResponse, origin: Js.Option<string>)
    modifies res
    ensures res.headers == WithCorsHeaders(old(res.headers), origin)
  {
    if origin.Some? && origin.value in DevOrigins {
      res.SetHeader("Access-Control-Allow-Origin", origin.value);
    }
    res.SetHeader("Access-Control-Allow-Methods", "GET, POST, OPTIONS");
    res.SetHeader("Access-Control-Allow-Headers", "Content-Type, X-API-Key");
    res.SetHeader("Access-Control-Max-Age", "86400");
    res.SetHeader("Access-Control-Allow-Credentials", "false");
  }

  // ---------------------------------------------------------------------
  // Routing

  datatype Target =
    | Preflight
    | ChatHandler
    | ImagesHandler
    | DatabaseHandler(action: string)
    | StorageHandler(action: string)
    | Static(pathname: string)

  /** The API paths a POST request is dispatched on. */
  const PostRoutes: map<string, Target> := map[
    "/api/openai/chat" := ChatHandler,
    "/api/openai/images" := ImagesHandler,
    "/api/database/get-questions" := DatabaseHandler("get-questions"),
    "/api/database/save-question" := DatabaseHandler("save-question"),
    "/api/database/save-quiz" := DatabaseHandler("save-quiz"),
    "/api/storage/upload" := StorageHandler("upload"),
    "/api/storage/get-signed-url" := StorageHandler("get-signed-url"),
    "/api/storage/proxy-image" := StorageHandler("proxy-image")
  ]

  /** Where the request callback sends a request. */
  function Route(verb: string, pathname: string): (t: Target)
    ensures verb == "OPTIONS" <==> t == Preflight
    ensures verb == "POST" && pathname in PostRoutes ==> t == PostRoutes[pathname]
    ensures verb != "OPTIONS" && pathname !in PostRoutes ==> t == Static(pathname)
    ensures verb != "POST" && verb != "OPTIONS" ==>
              t == (if pathname == "/api/storage/proxy-image" then StorageHandler("proxy-image") else Static(pathname))
    ensures t.Static? ==> t.pathname == pathname
  {
    if verb == "OPTIONS" then Preflight
    else if verb == "POST" then
      if pathname in PostRoutes then PostRoutes[pathname] else Static(pathname)
    else if pathname == "/api/storage/proxy-image" then StorageHandler("proxy-image")
    else Static(pathname)
  }

  /** Only a POST reaches a handler that writes: a GET (or any method other
      than POST and OPTIONS) reaches the image proxy or a static file. */
  lemma OnlyPostReachesWriters(verb: string, pathname: string)
    requires verb != "POST"
    ensures !Route(verb, pathname).ChatHandler? && !Route(verb, pathname).ImagesHandler?
    ensures !Route(verb, pathname).DatabaseHandler?
    ensures Route(verb, pathname).StorageHandler? ==> Route(verb, pathname).action == "proxy-image"
  {
  }

  /** The request callback up to dispatch: CORS headers first, for every
      method, then the route. */
  method HandleRequest(res: Http.ServerResponse, verb: string, pathname: string, origin: Js.Option<string>)
    returns (t: Target)
    modifies res
    ensures res.headers == WithCorsHeaders(old(res.headers), origin)
    ensures t == Route(verb, pathname)
  {
    Cors(res, origin);
    t := Route(verb, pathname);
  }

  // ---------------------------------------------------------------------
  // Static files

  /** `'.' + pathname`, with './' standing for './index.html'. */
  function StaticPath(pathname: string): (p: string)
    ensures pathname == "/" ==> p == "./index.html"
    ensures pathname != "/" ==> p == "." + pathname
  {
    var filePath := "." + pathname;
    if filePath == "./" then
      assert pathname == filePath[1..];
      "./index.html"
    else
      assert pathname == "/" ==> filePath == "./";
      filePath
  }

  /** `s` without its trailing `c` characters. */
  function TrimEnd(s: string, c: char): (r: string)
    ensures |r| <= |s| && r == s[..|r|]
    ensures |r| > 0 ==> r[|r| - 1] != c
    ensures forall i | |r| <= i < |s| :: s[i] == c
    decreases |s|
  {
    if |s| > 0 && s[|s| - 1] == c then TrimEnd(s[..|s| - 1], c) else s
  }

  /** The index of the last `c` in `s`. */
  function LastIndexOf(s: string, c: char): (r: Js.Option<nat>)
    ensures r.None? <==> c !in s
    ensures r.Some? ==> r.value < |s| && s[r.value] == c && c !in s[r.value + 1..]
    decreases |s|
  {
    if |s| == 0 then Js.None
    else if s[|s| - 1] == c then Js.Some(|s| - 1)
    else
      assert s[..|s| - 1] + [s[|s| - 1]] == s;
      LastIndexOf(s[..|s| - 1], c)
  }

  /** The last path component, after any trailing slashes are dropped. */
  function Basename(p: string): (b: string)
    ensures '/' !in b
  {
    var t := TrimEnd(p, '/');
    match LastIndexOf(t, '/')
    case None => t
    case Some(i) => t[i + 1..]
  }

  /** `path.extname` (POSIX): from the last '.' of the last component to its
      end; empty when that component has no '.', when its only dot is its
      first character, or when it is "..". */
  function Extname(p: string): (e: string)
    ensures e == "" || (e[0] == '.' && '/' !in e && '.' !in e[1..])
    ensures '.' !in Basename(p) ==> e == ""
  {
    var b := Basename(p);
    match LastIndexOf(b, '.')
    case None => ""
    case Some(d) => if d == 0 || b == ".." then "" else b[d..]
  }

  /** The MIME types the server knows, by lower-cased extension. */
  const MimeTypes: map<string, string> := map[
    ".html" := "text/html",
    ".js" := "text/javascript",
    ".css" := "text/css",
    ".json" := "application/json",
    ".png" := "image/png",
    ".jpg" := "image/jpg",
    ".gif" := "image/gif",
    ".svg" := "image/svg+xml"
  ]

  /** The Content-Type of a served file. */
  function ContentType(filePath: string): (t: string)
    ensures Strings.Lower(Extname(filePath)) in MimeTypes ==> t == MimeTypes[Strings.Lower(Extname(filePath))]
    ensures Strings.Lower(Extname(filePath)) !in MimeTypes ==> t == "application/octet-stream"
    ensures t in MimeTypes.Values || t == "application/octet-stream"
  {
    var ext := Strings.Lower(Extname(filePath));
    if ext in MimeTypes then MimeTypes[ext] else "application/octet-stream"
  }

  /** What reading the file gave. */
  datatype FileRead = Content | ReadError(code: string)

  datatype StaticReply = StaticReply(status: int, contentType: Js.Option<string>)

  /** `serveStatic`, given the outcome of reading the file it picked. */
  function ServeStatic(pathname: string, read: string -> FileRead): (r: StaticReply)
    ensures read(StaticPath(pathname)).Content? ==> r == StaticReply(200, Js.Some(ContentType(StaticPath(pathname))))
    ensures read(StaticPath(pathname)) == ReadError("ENOENT") ==> r == StaticReply(404, Js.Some("text/html"))
    ensures r.status == 500 <==> read(StaticPath(pathname)).ReadError? && read(StaticPath(pathname)).code != "ENOENT"
  {
    var filePath := StaticPath(pathname);
    match read(filePath)
    case Content => StaticReply(200, Js.Some(ContentType(filePath)))
    case ReadError(code) => if code == "ENOENT" then StaticReply(404, Js.Some("text/html")) else StaticReply(500, Js.None)
  }

  /** A file `stem.ext` in any directory is served with the type its
      extension names, matched without regard to ASCII case. */
  lemma TypeOfName(dir: string, stem: string, ext: string)
    requires '/' !in stem && '/' !in ext && '.' !in ext && ext != "" && stem != ""
    requires Strings.Lower("." + ext) in MimeTypes
    ensures ContentType(dir + "/" + (stem + "." + ext)) == MimeTypes[Strings.Lower("." + ext)]
  {
    ExtnameOfBase(dir, stem, ext);
  }

  /** The last component of `dir/b`. */
  lemma BasenameOf(dir: string, b: string)
    requires '/' !in b && b != ""
    ensures Basename(dir + "/" + b) == b
  {
    var p := dir + "/" + b;
    assert p[|p| - 1] == b[|b| - 1];
    assert TrimEnd(p, '/') == p;
    LastIndexAt(dir, '/', b);
    assert p[|dir| + 1..] == b;
  }

  /** A file name with a dotted extension has that extension, also when the
      name starts with dots. */
  lemma ExtnameOfBase(dir: string, stem: string, ext: string)
    requires '/' !in stem && '/' !in ext && '.' !in ext && ext != "" && stem != ""
    ensures Extname(dir + "/" + (stem + "." + ext)) == "." + ext
  {
    var b := stem + "." + ext;
    var p := dir + "/" + b;
    BasenameOf(dir, b);
    DotOfName(stem, ext);
    DotSuffix(stem, ext);
    ExtnameAtDot(p, b, |stem|);
  }

  /** The last dot of `stem.ext` is the one before `ext`. */
  lemma DotOfName(stem: string, ext: string)
    requires '.' !in ext
    ensures LastIndexOf(stem + "." + ext, '.') == Js.Some(|stem|)
  {
    LastIndexAt(stem, '.', ext);
  }

  /** `stem.ext` from its dot on is `.ext`, and it is not "..". */
  lemma DotSuffix(stem: string, ext: string)
    requires stem != "" && ext != ""
    ensures stem + "." + ext != ".." && (stem + "." + ext)[|stem|..] == "." + ext
  {
    assert |stem + "." + ext| >= 3;
  }

  /** The extension is cut at the last dot of the last component. */
  lemma ExtnameAtDot(p: string, b: string, d: nat)
    requires Basename(p) == b && LastIndexOf(b, '.') == Js.Some(d) && d != 0 && b != ".."
    ensures Extname(p) == b[d..]
  {
  }

  /** The last `c` of `a + [c] + b`, when `b` has none, is the one between. */
  lemma {:induction false} LastIndexAt(a: string, c: char, b: string)
    requires c !in b
    ensures LastIndexOf(a + [c] + b, c) == Js.Some(|a|)
    decreases |b|
  {
    var s := a + [c] + b;
    if |b| > 0 {
      assert s[|s| - 1] == b[|b| - 1];
      assert s[..|s| - 1] == a + [c] + b[..|b| - 1];
      LastIndexAt(a, c, b[..|b| - 1]);
    }
  }

  // ---------------------------------------------------------------------
  // The development storage actions

  /** `s3Url.split('/').pop().split('?')[0]` (the image proxy's
      `.slice(-1)[0]` picks the same piece). */
  function KeyFromUrl(s3Url: string): (key: string)
    ensures '/' !in key && '?' !in key
  {
    var segments := Strings.Split(s3Url, '/');
    var last := segments[|segments| - 1];
    Strings.SplitPiecesLackSeparator(s3Url, '/');
    Strings.SplitPiecesLackSeparator(last, '?');
    var first := Strings.Split(last, '?')[0];
    assert first in Strings.Split(last, '?');
    CharsOfPiece(last, '?', '/');
    first
  }

  /** A piece of a split has only characters of the string split. */
  lemma {:induction false} CharsOfPiece(s: string, sep: char, c: char)
    requires c !in s
    ensures forall i | 0 <= i < |Strings.Split(s, sep)| :: c !in Strings.Split(s, sep)[i]
    decreases |s|
  {
    if |s| > 0 {
      assert forall k | 0 <= k < |s[1..]| :: s[1..][k] == s[k + 1];
      CharsOfPiece(s[1..], sep, c);
    }
  }

  /** The last piece of a split at `sep` is what follows the last `sep`. */
  lemma {:induction false} SplitLast(a: string, b: string, sep: char)
    requires sep !in b
    ensures |Strings.Split(a + [sep] + b, sep)| >= 2
    ensures Strings.Split(a + [sep] + b, sep)[|Strings.Split(a + [sep] + b, sep)| - 1] == b
    decreases |a|
  {
    if |a| == 0 {
      assert a + [sep] + b == [sep] + b;
      assert ([sep] + b)[1..] == b;
      Strings.SplitWithoutSeparator(b, sep);
    } else {
      var s := a + [sep] + b;
      assert s[1..] == a[1..] + [sep] + b;
      SplitLast(a[1..], b, sep);
      var rest := Strings.Split(s[1..], sep);
      var parts := Strings.Split(s, sep);
      if s[0] == sep {
        assert parts == [""] + rest;
      } else {
        assert parts == [[s[0]] + rest[0]] + rest[1..];
      }
      assert parts[|parts| - 1] == rest[|rest| - 1];
    }
  }

  /** A URL `<prefix>/<key>` with an optional `?<query>` gives back its key. */
  lemma KeyFromUrlRoundTrip(prefix: string, key: string, query: Js.Option<string>)
    requires '/' !in key && '?' !in key
    requires query.Some? ==> '/' !in query.value
    ensures KeyFromUrl(prefix + "/" + key + (if query.Some? then "?" + query.value else "")) == key
  {
    var tail := key + (if query.Some? then "?" + query.value else "");
    assert '/' !in tail;
    assert prefix + "/" + key + (if query.Some? then "?" + query.value else "") == prefix + ['/'] + tail;
    SplitLast(prefix, tail, '/');
    if query.Some? {
      assert tail == key + ['?'] + query.value;
      Strings.SplitAtFirstSeparator(key, query.value, '?');
    } else {
      assert tail == key;
      Strings.SplitWithoutSeparator(key, '?');
    }
  }

  datatype DevReply =
    | SignedUrlIssued(signedUrl: string)
    | ImageServed(contentType: string, cacheControl: string)
    | DevError(status: int, error: string)

  /** The catch block of the storage actions answers every error the same. */
  const StorageFailure := DevError(500, "Storage service temporarily unavailable")

  /** The development `get-signed-url` action; `body` is the parsed request
      body and `sign` the presigner (None when it throws). */
  function DevSignedUrl(verb: string, body: Js.Value, sign: string -> Js.Option<string>): (r: DevReply)
    ensures verb != "POST" ==> r == DevError(405, "Method not allowed")
    ensures verb == "POST" && (body.Undefined? || body.Null?) ==> r == StorageFailure
    ensures verb == "POST" && Js.Property(body, "s3Url").Some? && !Js.Truthy(Js.Property(body, "s3Url").value) ==>
              r == DevError(400, "Missing s3Url")
    ensures (&& verb == "POST" && Js.Property(body, "s3Url").Some? && Js.Truthy(Js.Property(body, "s3Url").value)
             && !Js.Property(body, "s3Url").value.Str?) ==> r == StorageFailure
    ensures r.SignedUrlIssued? <==>
              && verb == "POST"
              && Js.Property(body, "s3Url").Some?
              && var s3Url := Js.Property(body, "s3Url").value;
              && s3Url.Str? && s3Url.s != ""
              && sign(KeyFromUrl(s3Url.s)).Some?
    ensures r.SignedUrlIssued? ==> r.signedUrl == sign(KeyFromUrl(Js.Property(body, "s3Url").value.s)).value
  {
    if verb != "POST" then DevError(405, "Method not allowed")
    else
      match Js.Property(body, "s3Url")
      case None => StorageFailure
      case Some(s3Url) =>
        if !Js.Truthy(s3Url) then DevError(400, "Missing s3Url")
        else if !s3Url.Str? then StorageFailure
        else
          match sign(KeyFromUrl(s3Url.s))
          case Some(url) => SignedUrlIssued(url)
          case None => StorageFailure
  }

  /** What S3 gave for a key: an object with a content type ("" when none)
      and a body or not, or an error. */
  datatype DevRead = DevObject(contentType: string, hasBody: bool) | DevReadFailed

  /** The URLs the development proxy accepts. */
  predicate LooksLikeS3(s3Url: string) {
    Strings.Contains(s3Url, "s3.amazonaws.com") || Strings.Contains(s3Url, "s3-")
  }

  /** The development `proxy-image` action; `query` is the parsed query
      string and `read` the S3 read of a key. */
  function DevProxyImage(verb: string, query: Js.Object, read: string -> DevRead): (r: DevReply)
    ensures verb != "GET" ==> r == DevError(405, "Method not allowed")
    ensures verb == "GET" && !Js.Truthy(Js.Get(query, "s3Url")) ==> r == DevError(400, "Missing s3Url parameter")
    ensures (&& verb == "GET" && Js.Truthy(Js.Get(query, "s3Url"))
             && !(Js.Get(query, "s3Url").Str? && LooksLikeS3(Js.Get(query, "s3Url").s))) ==> r == StorageFailure
    ensures r.ImageServed? <==>
              && verb == "GET" && Js.Truthy(Js.Get(query, "s3Url")) && Js.Get(query, "s3Url").Str? && LooksLikeS3(Js.Get(query, "s3Url").s)
              && var got := read(KeyFromUrl(Js.Get(query, "s3Url").s));
              && got.DevObject? && got.hasBody
    ensures r.ImageServed? ==>
              && var got := read(KeyFromUrl(Js.Get(query, "s3Url").s));
              && r.contentType == (if got.contentType == "" then "image/png" else got.contentType)
              && r.cacheControl == "public, max-age=3600"
    ensures (&& verb == "GET" && Js.Truthy(Js.Get(query, "s3Url")) && Js.Get(query, "s3Url").Str? && LooksLikeS3(Js.Get(query, "s3Url").s)
             && var got := read(KeyFromUrl(Js.Get(query, "s3Url").s));
             && got.DevObject? && !got.hasBody)
            ==> r == DevError(404, "Image not found")
    ensures (&& verb == "GET" && Js.Truthy(Js.Get(query, "s3Url")) && Js.Get(query, "s3Url").Str? && LooksLikeS3(Js.Get(query, "s3Url").s)
             && read(KeyFromUrl(Js.Get(query, "s3Url").s)).DevReadFailed?)
            ==> r == StorageFailure
    ensures r.DevError? ==> r.status in {405, 400, 404, 500}
  {
    if verb != "GET" then DevError(405, "Method not allowed")
    else
      var s3Url := Js.Get(query, "s3Url");
      if !Js.Truthy(s3Url) then DevError(400, "Missing s3Url parameter")
      else if !s3Url.Str? then StorageFailure
      else if !LooksLikeS3(s3Url.s) then StorageFailure
      else
        match read(KeyFromUrl(s3Url.s))
        case DevObject(contentType, hasBody) =>
          if hasBody then ImageServed(if contentType == "" then "image/png" else contentType, "public, max-age=3600")
          else DevError(404, "Image not found")
        case DevReadFailed => StorageFailure
  }

  /** A URL naming neither the S3 domain nor an "s3-" bucket is never
      proxied: it ends in the catch block's 500. */
  lemma {:induction false} ForeignUrlIs500(s3Url: string, read: string -> DevRead)
    requires s3Url != ""
    requires '3' !in s3Url
    ensures DevProxyImage("GET", map["s3Url" := Js.Str(s3Url)], read) == StorageFailure
  {
    Strings.ContainsCarriesChars(s3Url, "s3.amazonaws.com", '3');
    Strings.ContainsCarriesChars(s3Url, "s3-", '3');
  }
}
