/** The security middleware shared by the API handlers: hardening headers,
    origin / API-key authentication, required-field validation, string
    sanitising, image-URL checking, error-to-status mapping and the
    `secureEndpoint` wrapper that runs them in order. */
module Security {
  import Strings
  import Seqs
  import Js
  import Http
  import RateLimit

  /** The frontend deployments the middleware trusts. */
  const AllowedOrigins: seq<string> := [
    "https://gesture-genius-gd1s4stri-rickys-projects-c77239e3.vercel.app",
    "https://gesture-genius-rog748qge-rickys-projects-c77239e3.vercel.app"
  ]

  // ---------------------------------------------------------------------
  // Security headers

  /** The header table after `setSecurityHeaders`. The allowed origin is the
      ALLOWED_ORIGIN environment value when it is non-empty, else the first
      trusted origin. */
  function WithSecurityHeaders(h: map<string, string>, allowedOriginEnv: string): (r: map<string, string>)
    ensures "Access-Control-Allow-Origin" in r
    ensures r["Access-Control-Allow-Origin"] == (if allowedOriginEnv != "" then allowedOriginEnv else AllowedOrigins[0])
    ensures "X-Frame-Options" in r && r["X-Frame-Options"] == "DENY"
    ensures "X-Content-Type-Options" in r && r["X-Content-Type-Options"] == "nosniff"
    ensures "X-Powered-By" in r && r["X-Powered-By"] == ""
    ensures "Access-Control-Allow-Methods" in r && r["Access-Control-Allow-Methods"] == "POST, OPTIONS"
    ensures "X-XSS-Protection" in r && r["X-XSS-Protection"] == "1; mode=block"
    ensures "Referrer-Policy" in r && r["Referrer-Policy"] == "strict-origin-when-cross-origin"
    ensures "Access-Control-Allow-Headers" in r && r["Access-Control-Allow-Headers"] == "Content-Type, X-API-Key"
    ensures "Access-Control-Max-Age" in r && r["Access-Control-Max-Age"] == "86400"
    ensures r.Keys == h.Keys + SecurityHeaderNames
    ensures forall k | k in h && k !in SecurityHeaderNames :: r[k] == h[k]
  {
    h["X-Frame-Options" := "DENY"]
     ["X-XSS-Protection" := "1; mode=block"]
     ["X-Content-Type-Options" := "nosniff"]
     ["Referrer-Policy" := "strict-origin-when-cross-origin"]
     ["X-Powered-By" := ""]
     ["Access-Control-Allow-Origin" := if allowedOriginEnv != "" then allowedOriginEnv else AllowedOrigins[0]]
     ["Access-Control-Allow-Methods" := "POST, OPTIONS"]
     ["Access-Control-Allow-Headers" := "Content-Type, X-API-Key"]
     ["Access-Control-Max-Age" := "86400"]
  }

  const SecurityHeaderNames: set<string> := {
    "X-Frame-Options", "X-XSS-Protection", "X-Content-Type-Options", "Referrer-Policy", "X-Powered-By",
    "Access-Control-Allow-Origin", "Access-Control-Allow-Methods", "Access-Control-Allow-Headers",
    "Access-Control-Max-Age"}

  method SetSecurityHeaders(res: Http.ServerResponse, allowedOriginEnv: string)
    modifies res
    ensures res.headers == WithSecurityHeaders(old(res.headers), allowedOriginEnv)
  {
    res.SetHeader("X-Frame-Options", "DENY");
    res.SetHeader("X-XSS-Protection", "1; mode=block");
    res.SetHeader("X-Content-Type-Options", "nosniff");
    res.SetHeader("Referrer-Policy", "strict-origin-when-cross-origin");
    res.SetHeader("X-Powered-By", "");
    var allowedOrigin := if allowedOriginEnv != "" then allowedOriginEnv else AllowedOrigins[0];
    res.SetHeader("Access-Control-Allow-Origin", allowedOrigin);
    res.SetHeader("Access-Control-Allow-Methods", "POST, OPTIONS");
    res.SetHeader("Access-Control-Allow-Headers", "Content-Type, X-API-Key");
    res.SetHeader("Access-Control-Max-Age", "86400");
  }

  // ---------------------------------------------------------------------
  // Authentication
  //
  // A header that is absent reads as the empty string: both are falsy.

  /** The Origin is one of the trusted origins, or the Referer begins with one. */
  predicate FromAllowedOrigin(origin: string, referer: string) {
    || (origin != "" && origin in AllowedOrigins)
    || (referer != "" && exists o | o in AllowedOrigins :: Strings.StartsWith(referer, o))
  }

  datatype AuthDecision = Proceed | AuthRequired | InvalidKey

  function AuthStatus(d: AuthDecision): int {
    match d
    case Proceed => 200
    case AuthRequired => 401
    case InvalidKey => 403
  }

  /** `authenticate`: preflights and trusted origins pass; everyone else
      needs the shared secret in X-API-Key. */
  function Authenticate(verb: string, origin: string, referer: string, apiKey: string, secret: string): (r: AuthDecision)
    ensures r == Proceed <==>
              verb == "OPTIONS" || FromAllowedOrigin(origin, referer) || (apiKey != "" && apiKey == secret)
    ensures r == AuthRequired <==> verb != "OPTIONS" && !FromAllowedOrigin(origin, referer) && apiKey == ""
    ensures r == InvalidKey <==>
              verb != "OPTIONS" && !FromAllowedOrigin(origin, referer) && apiKey != "" && apiKey != secret
  {
    if verb == "OPTIONS" then Proceed
    else if FromAllowedOrigin(origin, referer) then Proceed
    else if apiKey == "" then AuthRequired
    else if apiKey != secret then InvalidKey
    else Proceed
  }

  // ---------------------------------------------------------------------
  // Required fields

  /** The presence check of one field throws a TypeError: the field holds an
      object with its own "toString" key, which `obj[field].toString()`
      cannot call, or an array holding such an object, which its
      `toString` cannot join. */
  predicate CheckThrows(obj: Js.Object, field: string) {
    Js.ToStrThrows(Js.Get(obj, field))
  }

  /** `!obj[field] || obj[field].toString().trim().length === 0` completes and
      holds: the field is falsy, or blank once converted and trimmed. */
  predicate IsMissing(obj: Js.Object, field: string) {
    var v := Js.Get(obj, field);
    !Js.Truthy(v) || (!Js.ToStrThrows(v) && Strings.Blank(Js.ToStr(v)))
  }

  /** The check completes and finds the field there. */
  predicate Present(obj: Js.Object, field: string) {
    !CheckThrows(obj, field) && !IsMissing(obj, field)
  }

  /** The outcome of the filter: the missing fields, or the first field whose
      check threw, which ends the filter. */
  datatype Filtered = Kept(missing: seq<string>) | CheckFailed(field: string)

  /** `fields.filter(field => ...)` with the presence check above. */
  function MissingFields(obj: Js.Object, fields: seq<string>): (r: Filtered)
    ensures r.CheckFailed? <==> exists f | f in fields :: CheckThrows(obj, f)
    ensures r.CheckFailed? ==>
              exists i | 0 <= i < |fields| ::
                fields[i] == r.field && CheckThrows(obj, fields[i]) &&
                forall j | 0 <= j < i :: !CheckThrows(obj, fields[j])
    ensures r.Kept? ==> forall f :: f in r.missing <==> f in fields && IsMissing(obj, f)
    ensures r.Kept? ==> Seqs.IsSubsequence(r.missing, fields)
    decreases |fields|
  {
    if |fields| == 0 then Kept([])
    else if CheckThrows(obj, fields[0]) then CheckFailed(fields[0])
    else
      match MissingFields(obj, fields[1..])
      case CheckFailed(f) =>
        var i :| 0 <= i < |fields[1..]| && fields[1..][i] == f && CheckThrows(obj, fields[1..][i]) &&
                  forall j | 0 <= j < i :: !CheckThrows(obj, fields[1..][j]);
        assert forall j | 1 <= j < i + 1 :: fields[j] == fields[1..][j - 1];
        CheckFailed(f)
      case Kept(rest) =>
        if IsMissing(obj, fields[0]) then Kept([fields[0]] + rest) else Kept(rest)
  }

  /** When no check throws, a missing field is reported as often as it is
      listed. */
  lemma {:induction false} MissingFieldsCounts(obj: Js.Object, fields: seq<string>)
    ensures MissingFields(obj, fields).Kept? ==>
              forall f :: multiset(MissingFields(obj, fields).missing)[f] ==
                            if IsMissing(obj, f) then multiset(fields)[f] else 0
    decreases |fields|
  {
    if |fields| > 0 && MissingFields(obj, fields).Kept? {
      var head := fields[0];
      var tail := fields[1..];
      MissingFieldsCounts(obj, tail);
      var rest := MissingFields(obj, tail).missing;
      assert fields == [head] + tail;
      forall f
        ensures multiset(MissingFields(obj, fields).missing)[f] ==
                  if IsMissing(obj, f) then multiset(fields)[f] else 0
      {
        Seqs.CountCons(head, tail, f);
        if IsMissing(obj, head) {
          Seqs.CountCons(head, rest, f);
        }
      }
    }
  }

  /** The message of the TypeError the check of `v` throws: calling the own
      "toString" of an object, or joining an array that holds one. */
  function CheckError(v: Js.Value): string {
    if v.Obj? then "obj[field].toString is not a function" else "Cannot convert object to primitive value"
  }

  /** The error message `validateRequired` throws. */
  function MissingMessage(missing: seq<string>): string {
    "Missing required fields: " + Strings.Join(missing, ", ")
  }

  /** `validateRequired`: None when every field is present, else the message
      of what it throws: the TypeError of the first field whose check throws,
      or the Error listing the missing fields in order. */
  function ValidateRequired(obj: Js.Object, fields: seq<string>): (r: Js.Option<string>)
    ensures r.None? <==> forall f | f in fields :: Present(obj, f)
    ensures MissingFields(obj, fields).CheckFailed? ==>
              r == Js.Some(CheckError(Js.Get(obj, MissingFields(obj, fields).field)))
    ensures MissingFields(obj, fields).Kept? && r.Some? ==>
              r.value == MissingMessage(MissingFields(obj, fields).missing)
  {
    match MissingFields(obj, fields)
    case CheckFailed(f) => Js.Some(CheckError(Js.Get(obj, f)))
    case Kept(missing) =>
      if |missing| > 0 then
        assert missing[0] in missing;
        Js.Some(MissingMessage(missing))
      else Js.None
  }

  /** With a single required field that is missing, the message names it. */
  lemma OneFieldMissing(obj: Js.Object, field: string)
    requires IsMissing(obj, field)
    ensures ValidateRequired(obj, [field]) == Js.Some("Missing required fields: " + field)
  {
    assert MissingFields(obj, [field]) == Kept([field]) by {
      assert [field][1..] == [];
    }
  }

  /** With a single required field whose check throws, the TypeError is
      what `validateRequired` throws. */
  lemma OneFieldThrows(obj: Js.Object, field: string)
    requires CheckThrows(obj, field)
    ensures ValidateRequired(obj, [field]) == Js.Some(CheckError(Js.Get(obj, field)))
  {
    assert field in [field];
  }

  // ---------------------------------------------------------------------
  // Sanitising

  /** `s` holds `lit` at position `i`, ignoring the case of ASCII letters
      (the `i` flag of a non-Unicode regular expression). */
  predicate MatchesAt(s: string, i: nat, lit: string) {
    i + |lit| <= |s| && Strings.Lower(s[i..i + |lit|]) == lit
  }

  predicate IsWordChar(c: char) {
    ('a' <= c <= 'z') || ('A' <= c <= 'Z') || ('0' <= c <= '9') || c == '_'
  }

  /** `<script\b` matches at `i`. */
  predicate OpensScript(s: string, i: nat) {
    MatchesAt(s, i, "<script") && (i + 7 == |s| || !IsWordChar(s[i + 7]))
  }

  /** The first `</script>` at or after position `j`. */
  function CloseFrom(s: string, j: nat): (r: Js.Option<nat>)
    ensures r.Some? ==> j <= r.value && MatchesAt(s, r.value, "</script>")
    ensures r.Some? ==> forall m | j <= m < r.value :: !MatchesAt(s, m, "</script>")
    ensures r.None? ==> forall m | j <= m :: !MatchesAt(s, m, "</script>")
    decreases |s| - j
  {
    if j + 9 > |s| then Js.None
    else if MatchesAt(s, j, "</script>") then Js.Some(j)
    else CloseFrom(s, j + 1)
  }

  /** The regular expression `<script\b[^<]*(?:(?!<\/script>)<[^<]*)*<\/script>`
      matches at the start of `s`; it then ends at the first `</script>`
      after the opening tag. */
  function ScriptBlockEnd(s: string): (r: Js.Option<nat>)
    ensures r.Some? ==> 16 <= r.value <= |s|
  {
    if OpensScript(s, 0) then
      match CloseFrom(s, 7)
      case Some(k) => Js.Some(k + 9)
      case None => Js.None
    else Js.None
  }

  /** `s.replace(<script block regex>/gi, '')`: every match, searched left
      to right and never overlapping, is removed. */
  function StripScripts(s: string): (r: string)
    ensures |r| <= |s|
    decreases |s|
  {
    if |s| == 0 then ""
    else
      match ScriptBlockEnd(s)
      case Some(e) => StripScripts(s[e..])
      case None => [s[0]] + StripScripts(s[1..])
  }

  /** No script block matches anywhere in `s`. */
  predicate NoScriptBlock(s: string) {
    forall i | 0 <= i < |s| :: ScriptBlockEnd(s[i..]).None?
  }

  /** A string without script blocks is left unchanged. */
  lemma {:induction false} StripScriptsKeepsBenign(s: string)
    requires NoScriptBlock(s)
    ensures StripScripts(s) == s
    decreases |s|
  {
    if |s| > 0 {
      assert s[0..] == s;
      forall i | 0 <= i < |s[1..]|
        ensures ScriptBlockEnd(s[1..][i..]).None?
      {
        assert s[1..][i..] == s[i + 1..];
      }
      StripScriptsKeepsBenign(s[1..]);
      assert [s[0]] + s[1..] == s;
    }
  }

  /** A script block in a prefix of `t` is a script block of `t`. */
  lemma BlockInPrefix(t: string, n: nat)
    requires n <= |t|
    ensures ScriptBlockEnd(t[..n]).Some? ==> ScriptBlockEnd(t).Some?
  {
    var u := t[..n];
    if ScriptBlockEnd(u).Some? {
      var k := CloseFrom(u, 7).value;
      assert u[..7] == t[..7];
      assert forall j | k <= j < k + 9 :: u[j] == t[j];
      assert u[k..k + 9] == t[k..k + 9];
      assert u[7] == t[7];
      assert MatchesAt(t, k, "</script>");
    }
  }

  /** Truncating a string cannot create a script block. */
  lemma TruncationKeepsBenign(s: string, n: nat)
    requires n <= |s| && NoScriptBlock(s)
    ensures NoScriptBlock(s[..n])
  {
    forall i | 0 <= i < n
      ensures ScriptBlockEnd(s[..n][i..]).None?
    {
      assert s[..n][i..] == s[i..][..n - i];
      BlockInPrefix(s[i..], n - i);
    }
  }

  function Min(a: nat, b: nat): nat {
    if a <= b then a else b
  }

  /** `sanitizeString(str, maxLength)`: the empty string for non-strings,
      else the first `maxLength` characters with script blocks removed. */
  function SanitizeString(v: Js.Value, maxLength: nat): (r: string)
    ensures !v.Str? ==> r == ""
    ensures |r| <= maxLength
    ensures v.Str? ==> |r| <= |v.s|
    ensures v.Str? && NoScriptBlock(v.s) ==> r == v.s[..Min(maxLength, |v.s|)]
  {
    match v
    case Str(s) =>
      var cut := s[..Min(maxLength, |s|)];
      if NoScriptBlock(s) then
        TruncationKeepsBenign(s, Min(maxLength, |s|));
        StripScriptsKeepsBenign(cut);
        StripScripts(cut)
      else
        StripScripts(cut)
    case _ => ""
  }

  // ---------------------------------------------------------------------
  // Image URL

  /** `validateImageUrl`: a non-empty string whose parsed protocol is http:
      or https:; `protocol` is what the URL parser yields for it (None when
      it throws). */
  function ValidateImageUrl(url: Js.Value, protocol: Js.Option<string>): (ok: bool)
    ensures ok ==> url.Str? && url.s != ""
    ensures ok <==> Js.Truthy(url) && url.Str? && protocol.Some? && protocol.value in ["http:", "https:"]
  {
    if !Js.Truthy(url) || !url.Str? then false
    else
      match protocol
      case None => false
      case Some(p) => p in ["http:", "https:"]
  }

  // ---------------------------------------------------------------------
  // Errors

  /** A thrown Error: its name, its code (empty when it has none) and its message. */
  datatype JsError = JsError(name: string, code: string, message: string)

  datatype ErrorReply = ErrorReply(status: int, error: string)

  /** `handleApiError`: validation and upload-size errors are 400, duplicate
      keys 409, the rest 500 whose raw message is shown only outside
      production. */
  function HandleApiError(e: JsError, production: bool): (r: ErrorReply)
    ensures r.status in {400, 409, 500}
    ensures r.status == 400 <==> e.name == "ValidationError" || e.code == "LIMIT_FILE_SIZE"
    ensures r.status == 409 <==>
              e.name != "ValidationError" && e.code != "LIMIT_FILE_SIZE" && Strings.Contains(e.message, "duplicate key value")
    ensures r.status == 500 && production ==> r.error == "Internal server error"
    ensures r.status == 500 && !production ==> r.error == e.message
  {
    if e.name == "ValidationError" then ErrorReply(400, "Invalid input data")
    else if e.code == "LIMIT_FILE_SIZE" then ErrorReply(400, "File too large")
    else if Strings.Contains(e.message, "duplicate key value") then ErrorReply(409, "Resource already exists")
    else ErrorReply(500, if production then "Internal server error" else e.message)
  }

  // ---------------------------------------------------------------------
  // The wrapper

  /** The request headers the gate reads. */
  datatype Request = Request(
    verb: string, forwardedFor: string, remoteAddress: string,
    origin: string, referer: string, apiKey: string)

  /** What the wrapped handler does when it runs: answer with a status, or throw. */
  datatype HandlerResult = Responded(status: int) | Threw(error: JsError)

  datatype GateResult =
    | Preflight
    | RateLimited(retryAfter: int)
    | Denied(auth: AuthDecision)
    | Handled(status: int)
    | Failed(reply: ErrorReply)

  function GateStatus(g: GateResult): int {
    match g
    case Preflight => 200
    case RateLimited(_) => 429
    case Denied(a) => AuthStatus(a)
    case Handled(s) => s
    case Failed(r) => r.status
  }

  /** The order of `secureEndpoint`: a preflight is answered before anything
      else; the rate limit is consulted before authentication; the handler
      runs only when both admit, and what it throws goes to `handleApiError`. */
  function Gate(verb: string, rate: RateLimit.Decision, auth: AuthDecision, handler: HandlerResult, production: bool): (g: GateResult)
    ensures verb == "OPTIONS" <==> g == Preflight
    ensures g.RateLimited? <==> verb != "OPTIONS" && rate.Limited?
    ensures g.Denied? <==> verb != "OPTIONS" && rate.Admitted? && auth != Proceed
    ensures (g.Handled? || g.Failed?) <==> verb != "OPTIONS" && rate.Admitted? && auth == Proceed
    ensures g.Handled? <==> verb != "OPTIONS" && rate.Admitted? && auth == Proceed && handler.Responded?
    ensures g.Handled? ==> g.status == handler.status
    ensures g.Denied? ==> g.auth == auth && GateStatus(g) in {401, 403}
    ensures g.RateLimited? ==> g.retryAfter == rate.retryAfter
    ensures g.Failed? ==> handler.Threw? && g.reply == HandleApiError(handler.error, production)
    ensures verb != "OPTIONS" && rate.Admitted? && auth == Proceed && handler.Threw? ==>
              g == Failed(HandleApiError(handler.error, production))
  {
    if verb == "OPTIONS" then Preflight
    else if rate.Limited? then RateLimited(rate.retryAfter)
    else if auth != Proceed then Denied(auth)
    else
      match handler
      case Responded(s) => Handled(s)
      case Threw(e) => Failed(HandleApiError(e, production))
  }

  /** `secureEndpoint(handler)` serving one request at time `now`. The rate
      limiter is touched only by requests that are not preflights. */
  method SecureEndpoint(
    limiter: RateLimit.RateLimiter, res: Http.ServerResponse, req: Request, now: int,
    secret: string, allowedOriginEnv: string, production: bool, handler: HandlerResult)
    returns (g: GateResult)
    requires limiter.Valid()
    modifies limiter, res
    ensures limiter.Valid()
    ensures res.headers == WithSecurityHeaders(old(res.headers), allowedOriginEnv)
    ensures req.verb == "OPTIONS" ==> g == Preflight && limiter.store == old(limiter.store)
    ensures req.verb != "OPTIONS" ==>
              var step := RateLimit.RequestStep(old(limiter.store), RateLimit.ClientId(req.forwardedFor, req.remoteAddress), now);
              && limiter.store == step.store
              && g == Gate(req.verb, step.decision,
                           Authenticate(req.verb, req.origin, req.referer, req.apiKey, secret), handler, production)
  {
    SetSecurityHeaders(res, allowedOriginEnv);
    if req.verb == "OPTIONS" {
      return Preflight;
    }
    var ip := RateLimit.ClientId(req.forwardedFor, req.remoteAddress);
    var rate := limiter.Request(ip, now);
    if rate.Limited? {
      return RateLimited(rate.retryAfter);
    }
    var auth := Authenticate(req.verb, req.origin, req.referer, req.apiKey, secret);
    if auth != Proceed {
      return Denied(auth);
    }
    match handler {
      case Responded(s) => g := Handled(s);
      case Threw(e) => g := Failed(HandleApiError(e, production));
    }
  }
}
