# Gesture Genius request-handling core, in Dafny

Gesture Genius is a sign-language quiz web application. Its serverless API
functions and its local development server do little computing of their
own: they hand work to OpenAI, S3 and a Postgres database. This project
models the decisions they make around those calls. Each decision is a
Dafny function, method or class, with the properties the code promises
proved about it.

- **Security middleware** (`Security`, `RateLimit`, `Http`):
  - the hardening and CORS headers;
  - the per-client fixed-window rate limiter, modelled as a class over a
    `map` of records with a sweep loop;
  - origin, referer and API-key authentication;
  - required-field validation;
  - string sanitising: truncation plus removal of `<script>` blocks;
  - the image-URL protocol check;
  - the error-to-status mapping;
  - the `secureEndpoint` wrapper that runs these in order.
- **Development server** (`DevServer`, `QuizOptions`):
  - the CORS middleware, the route table and the static-file MIME lookup;
  - its storage actions, which take the key to be the last URL segment;
  - the conversions of quiz options between the stored four-slot object
    and the answer list the frontend uses, in both directions;
  - the coaching-tips formatting and the camelCase/snake_case field aliases
    of a saved question.
- **Storage handlers** (`S3Key`, `Upload`):
  - key extraction from virtual-hosted and path-style S3 URLs;
  - the proxy-image and signed-URL handlers and their ordered mapping from
    error message to status;
  - the upload handler and its `{datetime}-{type}-{id}.png` key.
- **OpenAI proxies** (`Images`, `Chat`): parameter validation, allow-lists,
  defaults, bounds, role normalisation and length caps.
- **JavaScript semantics** (`Js`, `Strings`, `Seqs`): the values a request
  body can hold, and the operators the handlers apply to them. Numbers are
  integers.

Clock, UUID, URL parser, `JSON.parse`, `fetch`, S3, signing and file reads
are parameters of the functions that use them. No file of this project
imports anything outside it.

### Where the documented design and the code differ (the model follows the code)

- The rate-limit sweep deletes a record only when its age is strictly
  greater than the 60000 ms window (`>`, not `>=`).
- A request refused by the rate limiter still raises the stored count,
  because the record is changed before the early return.
- On the write path, `wrong1` is the first other option of length
  strictly below 10.
- The serverless signed-URL handler answers a missing `s3Url` with 500, not
  400. The presence check throws a message that matches neither
  "credentials" nor "Invalid S3 URL".
- The development image proxy answers a URL that is not an S3 URL with 500
  through its catch block, not with 400.
- In the chat proxy, an empty `messages` array is caught by the presence
  check (an empty array prints as ""), so it gets 500 and never the 400
  meant for it.

## Model

| member | source | states |
|---|---|---|
| Http.ServerResponse.SetHeader | api/middleware/security.js:16-31 | setting a header changes that entry of the header table and nothing else |
| Security.WithSecurityHeaders | api/middleware/security.js:15-32 | the nine hardening and CORS headers are set to their fixed values; Allow-Origin is ALLOWED_ORIGIN or the first trusted origin; exactly these keys are added and the rest are kept |
| Security.SetSecurityHeaders | api/middleware/security.js:15-32 | the response's headers become `WithSecurityHeaders` of the old ones |
| RateLimit.ClientId | api/middleware/security.js:36 | the client key is X-Forwarded-For if present, else the remote address, else "unknown"; it is never empty |
| RateLimit.Swept | api/middleware/security.js:40-44 | a record is removed exactly when `now - firstRequest > 60000`; kept records are unchanged |
| RateLimit.CeilSeconds | api/middleware/security.js:54 | `Math.ceil(ms / 1000)` for positive ms: at least 1, and the least s with ms <= 1000 s |
| RateLimit.Count | api/middleware/security.js:47-64 | a new client is admitted with `{now, 1}`; an expired window resets to `{now, 1}` and admits; inside the window the count rises by one, and the request is refused with retryAfter = ceil(remaining / 1000) when the new count exceeds 10; other clients are untouched |
| RateLimit.RequestStep | api/middleware/security.js:35-66 | a sweep followed by a count: other clients are kept or dropped by staleness alone; the caller always has a record; counts stay positive; admitted means a count of at most 10, refused means more |
| RateLimit.Run | api/middleware/security.js:35-66 | a sequence of requests from one client gives one decision per request |
| RateLimit.RunInsideWindow | api/middleware/security.js:49-57 | inside one window, k further requests raise the count by k, keep the window start, and the i-th is admitted iff count + i + 1 <= 10 |
| RateLimit.TenPerWindow | api/middleware/security.js:47-57 | a new client sending requests within 60 s of the first is admitted exactly for the first ten |
| RateLimit.RateLimiter.Sweep | api/middleware/security.js:40-44 | the loop over the store deletes exactly the stale records: `store == Swept(old(store), now)` |
| RateLimit.RateLimiter.Request | api/middleware/security.js:35-66 | the store and the decision are those of `RequestStep`; the count invariant is kept; a refusal carries 1 <= retryAfter <= 60 when no record is dated after now |
| Security.Authenticate | api/middleware/security.js:69-107 | OPTIONS, a trusted Origin or a Referer starting with one proceeds; otherwise no key gives 401 and a wrong key 403; the right key proceeds (each case as an iff) |
| Security.MissingFields | api/middleware/security.js:111 | the filter throws iff some listed field holds an object with its own "toString" (or an array holding one), and then names the first such field; otherwise it keeps exactly the listed fields that are falsy or blank after trim, in input order |
| Security.MissingFieldsCounts | api/middleware/security.js:111 | when no check throws, a missing field is reported as often as it is listed, and a present one never |
| Security.OneFieldMissing | api/middleware/security.js:110-115 | a single missing field gives the message "Missing required fields: " followed by its name |
| Security.ValidateRequired | api/middleware/security.js:110-115 | throws iff some listed field is missing or its check throws; the TypeError of the first field whose `toString` throws, otherwise "Missing required fields: " and the missing fields joined by ", " |
| Security.OneFieldThrows | api/middleware/security.js:111 | a single field whose `toString` throws makes `validateRequired` throw that TypeError |
| Security.CloseFrom | api/middleware/security.js:119 | the first `</script>` (any case) at or after a position, or none |
| Security.StripScripts | api/middleware/security.js:119 | removing script blocks never lengthens the string |
| Security.StripScriptsKeepsBenign | api/middleware/security.js:119 | a string in which no script block starts is left unchanged |
| Security.TruncationKeepsBenign | api/middleware/security.js:119 | cutting a string with no script block cannot create one |
| Security.SanitizeString | api/middleware/security.js:117-120 | "" for a non-string; never more than maxLength characters nor more than the input; a string without script blocks comes back as its first maxLength characters |
| Security.ValidateImageUrl | api/middleware/security.js:122-130 | true iff the URL is a non-empty string whose parsed protocol is http: or https: |
| Security.HandleApiError | api/middleware/security.js:133-150 | ValidationError or LIMIT_FILE_SIZE give 400, else "duplicate key value" gives 409, else 500 with the raw message only outside production (each as an iff) |
| Security.Gate | api/middleware/security.js:153-187 | OPTIONS is answered first; the rate limit comes before authentication and its retryAfter is passed on; a denial carries the authentication decision; the handler runs only when both admit, its status is passed on, and what it throws goes to `HandleApiError` |
| Security.SecureEndpoint | api/middleware/security.js:153-188 | headers are always set; a preflight leaves the limiter untouched; otherwise the limiter takes one `RequestStep` for the client and the result is that of `Gate` |
| QuizOptions.SlotValues | dev-server.js:238-243 | the four read candidates are correct, close, `wrong1 \|\| obviouslyWrong` and `wrong2 \|\| funnyWrong` |
| QuizOptions.FilterOptions | dev-server.js:243 | a TypeError iff some candidate is truthy but not a string; otherwise never more options than were given |
| QuizOptions.FilterMembers | dev-server.js:243 | a string is kept iff it is a candidate and is not blank after trim |
| QuizOptions.FilterCounts | dev-server.js:243 | each non-blank string is kept as many times as it occurs among the candidates, and no blank one is kept |
| QuizOptions.FilterStrings | dev-server.js:243 | a list of non-blank strings passes the filter unchanged, in order |
| QuizOptions.FilterKeepsOrder | dev-server.js:243 | the kept options are a subsequence of the candidates |
| QuizOptions.ReadOptions | dev-server.js:224-244 | falsy options, arrays, unparseable strings and strings that parse to arrays are unchanged; an object becomes the filtered list of its four slots, at most four non-blank options; a TypeError iff a slot is truthy but not a string |
| QuizOptions.NormalizeRow | dev-server.js:223-245 | a row whose options read as unchanged stays as it is; a rewritten read replaces `options` with the read list and keeps every other field; a TypeError iff the read throws |
| QuizOptions.NormalizeQuestions | dev-server.js:223-246 | the loop over the result rows rewrites each row in place; on a TypeError the earlier rows are rewritten and the failing row and those after it are unchanged |
| QuizOptions.At | dev-server.js:278-280 | `options[i]`, which is undefined outside the array |
| QuizOptions.Find | dev-server.js:278-279 | the first option that differs from the answer and whose length, converted with `Number`, is above 10 (or below 10); not found; or the TypeError when an earlier option is undefined or null or its length cannot be converted |
| QuizOptions.StringLengthIsConverted | dev-server.js:278 | an object option whose `length` is the string "20" is taken as long |
| QuizOptions.NullLengthIsShort | dev-server.js:279 | an object option whose `length` is null is taken as short |
| QuizOptions.OwnToStringLengthThrows | dev-server.js:278 | an object option whose `length` is an object with its own "toString" makes the find throw |
| QuizOptions.WriteSlots | dev-server.js:273-282 | correct is the chosen answer; wrong2 is the last option; close and wrong1 are the found options or options[1] and options[2]; a TypeError iff a find throws |
| QuizOptions.FirstOther | dev-server.js:278-279 | on string options, the first index of an option other than the answer whose length is above 10 (or below 10) |
| QuizOptions.FindOnStrings | dev-server.js:278-279 | on string options the finds never throw and agree with `FirstOther` |
| QuizOptions.WriteStringSlots | dev-server.js:276-281 | for string options the write path always succeeds and picks the slots by the length heuristic, an empty found option falling back |
| QuizOptions.SlotsObject | dev-server.js:276-281 | the stored object holds the four slots and none of the legacy names |
| QuizOptions.ReadSavedSlots | dev-server.js:237-244 | reading slots whose first entry is a non-blank answer and whose others come from the options yields a list led by the answer, every entry taken from the options |
| QuizOptions.WriteThenRead | dev-server.js:237-244 | saving string options and reading them back gives a non-empty list led by the answer, every entry the answer or one of the options |
| QuizOptions.SaveExample | dev-server.js:276-281 | options A, Bvalue12345, C, D with answer A give slots A, Bvalue12345, C, D |
| QuizOptions.ReadFourSlots | dev-server.js:237-244 | four stored slots holding non-blank strings read back as those four strings in slot order |
| QuizOptions.EmptyCloseDropped | dev-server.js:237-244 | an empty `close` slot is dropped on read and the other three come back in order |
| QuizOptions.TipsForStorage | dev-server.js:285-295 | null for falsy tips; an array is kept; a string is wrapped in a one-element array; any other truthy value is kept as it is |
| QuizOptions.LegacyKey | dev-server.js:270 | "legacy-key-" followed by decimal digits whose value is the timestamp, without a leading zero |
| Strings.DecimalRoundTrip | dev-server.js:270 | the decimal rendering of a number denotes that number |
| Strings.DecimalInjective | dev-server.js:270 | different timestamps render differently |
| QuizOptions.PrepareSave | dev-server.js:263-295 | each camelCase field wins when truthy, else the snake_case one; a missing s3_key becomes the legacy key; array options become the slot object; tips are formatted; a throw in the heuristic aborts |
| DevServer.WithCorsHeaders | dev-server.js:30-54 | Allow-Origin is set only to a listed origin; the four other CORS headers are always set; exactly these keys are added and no other header changes |
| DevServer.Cors | dev-server.js:30-54 | the response's headers become `WithCorsHeaders` of the old ones |
| DevServer.Route | dev-server.js:489-541 | OPTIONS is a preflight; a known POST path reaches its handler; other methods reach only the image proxy or static files; unknown paths are static |
| DevServer.OnlyPostReachesWriters | dev-server.js:498-540 | no method but POST reaches chat, images, the database or a storage action other than proxy-image |
| DevServer.HandleRequest | dev-server.js:485-541 | CORS headers are set for every request before it is routed |
| DevServer.StaticPath | dev-server.js:545-548 | "/" maps to ./index.html, any other path to "." + path |
| DevServer.Extname | dev-server.js:550 | the extension is empty or one dot followed by no dot or slash; a last component without a dot has none |
| DevServer.ExtnameOfBase | dev-server.js:550 | a file `stem.ext` in any directory has extension ".ext" |
| DevServer.ContentType | dev-server.js:550-562 | the MIME type of the lower-cased extension, or application/octet-stream |
| DevServer.TypeOfName | dev-server.js:550-562 | a file named `stem.ext` gets the type listed for `.ext`, whatever the ASCII case of the extension |
| DevServer.ServeStatic | dev-server.js:544-578 | a read file is 200 with its type; ENOENT is 404 text/html; any other read error is 500 |
| DevServer.KeyFromUrl | dev-server.js:407 | the key holds neither '/' nor '?' |
| DevServer.KeyFromUrlRoundTrip | dev-server.js:407 | `prefix/key?query` gives back `key` |
| DevServer.DevSignedUrl | dev-server.js:391-421 | non-POST gives 405; a falsy s3Url gives 400; a signed URL is issued iff s3Url is a non-empty string and signing its key succeeds; everything else gives the catch block's 500 |
| DevServer.DevProxyImage | dev-server.js:423-482 | non-GET 405; missing s3Url 400; a URL naming neither s3.amazonaws.com nor "s3-" ends in 500; an image is served iff the read finds an object with a body; an object without a body is 404 and a failed read 500; a served image defaults to image/png and is cached for an hour |
| DevServer.ForeignUrlIs500 | dev-server.js:441-445 | a URL without the character '3' cannot be proxied and ends in 500 |
| S3Key.NonEmpty | public/api/storage/proxy-image.js:30 | exactly the non-empty path parts, in their order and with their multiplicities |
| S3Key.ExtractFromValue | public/api/storage/proxy-image.js:16-40 | a value whose string conversion throws fails as "Invalid S3 URL: Cannot convert object to primitive value"; any other value is converted, parsed and extracted; every failure is one of the three "Invalid S3 URL: ..." messages |
| S3Key.ExtractS3Key | public/api/storage/proxy-image.js:16-40 | a hostname containing the bucket gives the path without its first character; an `s3.` host whose first non-empty path part is the bucket gives the remaining non-empty parts joined by '/'; every failure is an "Invalid S3 URL: ..." message |
| S3Key.VirtualHostedRoundTrip | public/api/storage/proxy-image.js:25-27 | `https://s3-ai-2025.s3.<region>.amazonaws.com/<key>` gives back the key |
| S3Key.PathSegments | public/api/storage/proxy-image.js:30 | the non-empty parts of `/<first>/<s1>/.../<sn>` are `first` and the `si` when none of them holds a slash |
| S3Key.PathStyleRoundTrip | public/api/storage/proxy-image.js:28-33 | `https://s3.<...>/s3-ai-2025/<segments>` gives back the segments joined by '/' |
| S3Key.ForeignHostRefused | public/api/storage/proxy-image.js:25-36 | any other host is refused with "Unrecognized S3 URL format" |
| S3Key.ProxyErrorStatus | public/api/storage/proxy-image.js:100-108 | NoSuchKey gives 404, else credentials 503, else Invalid S3 URL 400, else 500 (each as an iff) |
| S3Key.SignedUrlErrorStatus | public/api/storage/get-signed-url.js:83-89 | credentials gives 503, else Invalid S3 URL 400, else 500 (each as an iff) |
| S3Key.ExtractionFailureIs400 | public/api/storage/proxy-image.js:36-39 | every extraction failure maps to 400 in both handlers |
| S3Key.ValueExtractionFailureIs400 | public/api/storage/proxy-image.js:18-39 | whatever makes the extraction of a request value fail, including a conversion that throws, both handlers answer 400 |
| S3Key.ProxyImage | public/api/storage/proxy-image.js:42-110 | non-GET 405 and missing s3Url 400 before extraction; an image is served iff the key extracts and the S3 read succeeds, with the S3 content type or image/png, a one-year cache and Allow-Origin "*"; a failed extraction, including an s3Url whose string conversion throws, is 400, and a failed read goes through the status mapping |
| S3Key.GetSignedUrl | public/api/storage/get-signed-url.js:43-91 | non-POST 405; success iff s3Url passes `validateRequired`, its key extracts and signing succeeds, carrying that key, the signed URL and expiresIn 604800; a validation error (a missing field or a thrown TypeError) or a signing failure goes through the status mapping; a failed extraction is 400 |
| S3Key.MissingSignedUrlIs500 | public/api/storage/get-signed-url.js:52-89 | a missing or blank s3Url ends in 500 "Failed to generate signed URL" |
| S3Key.CheckErrorIs500 | public/api/storage/get-signed-url.js:83-89 | both TypeErrors of the presence check mention neither credentials nor an invalid URL, so the signer answers them with 500 |
| S3Key.ThrowingSignedUrlIs500 | public/api/storage/get-signed-url.js:52-89 | an s3Url whose `toString` throws ends in 500 "Failed to generate signed URL", not in the extraction's 400 |
| Upload.CleanChar | public/api/storage/upload.js:28 | a character is lower-cased and kept only if it then is in [a-z0-9] |
| Upload.Clean | public/api/storage/upload.js:28 | the result holds only [a-z0-9] and is no longer than the input; an already clean string is unchanged |
| Upload.CleanType | public/api/storage/upload.js:28 | the type segment is never empty and only [a-z0-9]; "unknown" when absent or when nothing survives cleaning; a non-string gesture type throws |
| Upload.CleanTypeIdempotent | public/api/storage/upload.js:28 | cleaning a cleaned type changes nothing |
| Upload.CleanAppend | public/api/storage/upload.js:28 | cleaning works character by character |
| Upload.CleanIgnoresAsciiCase | public/api/storage/upload.js:28 | ASCII case does not change the cleaned type |
| Upload.Datetime | public/api/storage/upload.js:19-22 | the datetime segment is at most 15 characters |
| Upload.IsoDatetime | public/api/storage/upload.js:19-22 | an ISO timestamp `YYYY-MM-DDTHH:mm:ss.sssZ` gives `YYYYMMDD-HHmmss` |
| Upload.GenerateFilename | public/api/storage/upload.js:13-31 | the name is datetime of (now + 8 h), "-", the type, "-", the first 8 characters of the UUID, ".png" |
| Upload.FilenameShape | public/api/storage/upload.js:16-30 | for a well-formed clock the name is `YYYYMMDD-HHmmss-<type>-<id8>.png` |
| Upload.ObjectUrlNamesKey | public/api/storage/upload.js:70 | the returned S3 URL extracts back to the stored key |
| Upload.HandleUpload | public/api/storage/upload.js:33-87 | non-POST 405; 400 iff imageUrl is falsy; an upload succeeds iff the download is ok, a filename is generated and S3 stores it, and then the key is the filename and the URL names it; every other failure is 500 |
| Images.ImageCount | api/images.js:34 | n is kept when it is a number in [1, 4], else 1 |
| Images.BuildRequest | api/images.js:22-43 | model, size and quality come from their allow-lists, defaulting to dall-e-3, 1024x1024 and standard |
| Images.LegacyImages | api/images.js:3-64 | non-POST 405; a missing prompt, or one whose `toString` throws, 500; a sanitised prompt under 10 characters 400; a forwarded prompt has 10 to 1000 characters and the upstream status is passed back; a failed upstream call is 500 |
| Chat.SanitizeMessage | public/api/openai/chat.js:24-27 | the role is kept if it is system, user or assistant and is otherwise "user"; the content is sanitised to at most 4000 characters; an undefined or null message throws |
| Chat.SanitizeMessages | public/api/openai/chat.js:24-27 | as many sanitised messages as given, each the sanitised element; a TypeError iff some element is undefined or null |
| Chat.MaxTokens | public/api/openai/chat.js:34 | max_tokens is forwarded iff it is a number in (0, 4000] |
| Chat.ChatHandler | public/api/openai/chat.js:3-55 | non-POST 405; a missing model or messages, or one whose `toString` throws, 500; a model off the list 400; non-array messages 400; a null message or a failed upstream call 500; a forwarded request carries the allowed model, exactly the sanitised input messages and the bounded max_tokens, and the upstream status is passed back |
| Chat.EmptyMessagesIs500 | public/api/openai/chat.js:10-21 | an empty messages array fails the presence check and gets 500, not 400 |
| Chat.OwnToStringMessageIs500 | public/api/openai/chat.js:10-53 | a message with its own "toString" makes the presence check throw, so the reply is 500 |

## Left out

- Floating point: `temperature` in the chat proxy is not modelled, and numbers are integers, so a fractional `n` or `max_tokens` is not represented.
- The outbound calls are parameters: OpenAI `fetch`, the image download, the S3 read, write and presigner, and the database. Only their outcome (a status, a failure, an object) enters the model. Response bodies pass through unmodelled.
- These are also parameters: the clock (`Date.now`, `toISOString`), `crypto.randomUUID`, the WHATWG URL parser (hostname, pathname and protocol arrive parsed) and `JSON.parse`.
- The SQL of the database handlers is not modelled: the random question order, the `reuse_count` update and the INSERTs. The dev server's chat, images and upload branches are not modelled either; the serverless handlers are modelled instead.
- Request body streaming, image chunk buffering, `Content-Length`, `fs.readFile` and logging are I/O and are not modelled.
- Security.SecureEndpoint: a request refused by the rate limiter or by `authenticate` never settles its promise in the source, because neither calls its callback after answering; the model returns `RateLimited` or `Denied` at those points instead.
- Strings are sequences of code points, not UTF-16 units. Lower-casing is exact for ASCII, and U+0130 and U+212A are handled; other non-ASCII case mappings are not modelled.
- QuizOptions.Find: `opt.length` is converted with `Number` for numbers, booleans, null, undefined, blank strings and strings of decimal digits. A string length with a sign, a decimal point, an exponent, a hex prefix or surrounding whitespace is read as NaN. So is an array length whose `toString` has one of these. Numbers are integers.
- QuizOptions.PrepareSave: stops at the row handed to the INSERT; the database reply is not modelled. The body is a JSON object; a body that is null or not an object is not represented.
- S3Key.GetSignedUrl: the body is a JSON object. A null body, whose destructuring throws, and a primitive or array body, whose s3Url reads as undefined, both end in the same 500 as a missing field; they are not represented.
- Upload.HandleUpload: the `details` field of the 500 reply (the raw error message) is not modelled.
- Images.LegacyImages and Chat.ChatHandler: the upstream reply is reduced to its status, or to a failure when the call throws or its non-empty body is not JSON (the catch block's 500); the body itself is not modelled.
- The development server's GET handling of `/` and the literal `index.html` lookup are covered only through the generic `StaticPath` and `TypeOfName` lemmas.
