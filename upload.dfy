/** The upload handler: it fetches a generated image, stores it in the
    bucket under a name of the form `{datetime}-{type}-{id}.png`, and answers
    with the object's URL. The clock's ISO rendering, the random UUID, the
    image download and the S3 write are parameters. */
module Upload {
  import Js
  import Strings
  import S3Key

  // ---------------------------------------------------------------------
  // The type segment

  predicate IsTypeChar(c: char) {
    'a' <= c <= 'z' || '0' <= c <= '9'
  }

  /** What `toLowerCase()` followed by `replace(/[^a-z0-9]/g, '')` leaves of
      one character: ASCII letters lowered, ASCII digits and lower-case
      letters kept, the two non-ASCII capitals whose lower case is ASCII
      (U+0130, lowered to "i" and a combining dot; U+212A KELVIN SIGN,
      lowered to "k") give that ASCII letter, everything else disappears. */
  function CleanChar(c: char): (r: string)
    ensures |r| <= 1
    ensures forall i | 0 <= i < |r| :: IsTypeChar(r[i])
    ensures IsTypeChar(c) ==> r == [c]
    ensures 'A' <= c <= 'Z' ==> r == [Strings.LowerChar(c)]
  {
    if IsTypeChar(c) then [c]
    else if 'A' <= c <= 'Z' then [Strings.LowerChar(c)]
    else if c == '\U{0130}' then "i"
    else if c == '\U{212A}' then "k"
    else ""
  }

  /** The cleaned characters of a string, in order. */
  function Clean(s: string): (r: string)
    ensures |r| <= |s|
    ensures forall i | 0 <= i < |r| :: IsTypeChar(r[i])
    ensures (forall i | 0 <= i < |s| :: IsTypeChar(s[i])) ==> r == s
    decreases |s|
  {
    if |s| == 0 then ""
    else CleanChar(s[0]) + Clean(s[1..])
  }

  /** `gestureType?.toLowerCase().replace(/[^a-z0-9]/g, '') || 'unknown'`;
      None when the value has no `toLowerCase` (a TypeError). */
  function CleanType(gestureType: Js.Value): (r: Js.Option<string>)
    ensures r.None? <==> !(gestureType.Undefined? || gestureType.Null? || gestureType.Str?)
    ensures r.Some? ==> r.value != "" && forall i | 0 <= i < |r.value| :: IsTypeChar(r.value[i])
    ensures gestureType.Undefined? || gestureType.Null? ==> r == Js.Some("unknown")
    ensures gestureType.Str? && Clean(gestureType.s) == "" ==> r == Js.Some("unknown")
    ensures gestureType.Str? && Clean(gestureType.s) != "" ==> r == Js.Some(Clean(gestureType.s))
  {
    match gestureType
    case Undefined => Js.Some("unknown")
    case Null => Js.Some("unknown")
    case Str(s) => var cleaned := Clean(s); Js.Some(if cleaned == "" then "unknown" else cleaned)
    case _ => Js.None
  }

  /** Cleaning is idempotent: a cleaned type cleans to itself. */
  lemma CleanTypeIdempotent(gestureType: Js.Value)
    requires CleanType(gestureType).Some?
    ensures CleanType(Js.Str(CleanType(gestureType).value)) == CleanType(gestureType)
  {
  }

  /** Cleaning commutes with concatenation, so a type is cleaned character
      by character. */
  lemma {:induction false} CleanAppend(a: string, b: string)
    ensures Clean(a + b) == Clean(a) + Clean(b)
    decreases |a|
  {
    if |a| > 0 {
      assert (a + b)[1..] == a[1..] + b;
      CleanAppend(a[1..], b);
    } else {
      assert a + b == b;
    }
  }

  /** ASCII upper case and lower case name the same type. */
  lemma {:induction false} CleanIgnoresAsciiCase(s: string)
    ensures Clean(Strings.Lower(s)) == Clean(s)
    decreases |s|
  {
    if |s| > 0 {
      assert Strings.Lower(s)[1..] == Strings.Lower(s[1..]);
      CleanIgnoresAsciiCase(s[1..]);
    }
  }

  // ---------------------------------------------------------------------
  // The datetime segment

  /** Eight hours in milliseconds: the UTC+8 offset the name is taken in. */
  const MytOffset := 8 * 60 * 60 * 1000

  /** `s.replace(/[-:]/g, '')` */
  function DropSeparators(s: string): (r: string)
    ensures |r| <= |s|
    ensures '-' !in r && ':' !in r
    decreases |s|
  {
    if |s| == 0 then ""
    else (if s[0] == '-' || s[0] == ':' then "" else [s[0]]) + DropSeparators(s[1..])
  }

  /** `s.replace('T', '-')`: only the first 'T'. */
  function ReplaceFirstT(s: string): (r: string)
    ensures |r| == |s|
    ensures 'T' !in s ==> r == s
    decreases |s|
  {
    if |s| == 0 then ""
    else if s[0] == 'T' then "-" + s[1..]
    else [s[0]] + ReplaceFirstT(s[1..])
  }

  /** `.slice(0, n)` */
  function Prefix(s: string, n: nat): (r: string)
    ensures |r| == if |s| < n then |s| else n
    ensures r == s[..|r|]
  {
    if |s| < n then s else s[..n]
  }

  /** The datetime segment made from an ISO rendering of the clock. */
  function Datetime(iso: string): (r: string)
    ensures |r| <= 15
  {
    Prefix(ReplaceFirstT(DropSeparators(iso)), 15)
  }

  predicate Digits(s: string) {
    forall i | 0 <= i < |s| :: Strings.IsDigit(s[i])
  }

  /** The rendering `YYYY-MM-DDTHH:mm:ss.sssZ` of its fields. */
  function IsoString(year: string, month: string, day: string,
                     hour: string, minute: string, second: string, millis: string): string
  {
    year + ("-" + (month + ("-" + (day + ("T" +
      (hour + (":" + (minute + (":" + (second + ("." + (millis + "Z"))))))))))))
  }

  /** `toISOString` gives `YYYY-MM-DDTHH:mm:ss.sssZ`; the datetime segment is
      then `YYYYMMDD-HHmmss`. */
  lemma IsoDatetime(year: string, month: string, day: string,
                    hour: string, minute: string, second: string, millis: string)
    requires |year| == 4 && |month| == 2 && |day| == 2 && |hour| == 2 && |minute| == 2 && |second| == 2
    requires Digits(year) && Digits(month) && Digits(day) && Digits(hour) && Digits(minute) && Digits(second)
    requires Digits(millis)
    ensures Datetime(IsoString(year, month, day, hour, minute, second, millis))
            == year + (month + (day + ("-" + (hour + (minute + second)))))
  {
    var tail := "." + (millis + "Z");
    var time := hour + (minute + (second + tail));
    DroppedTime(hour, minute, second, millis);
    DroppedDate(year, month, day, hour + (":" + (minute + (":" + (second + tail)))));
    var dropped := year + (month + (day + ("T" + time)));
    assert DropSeparators(IsoString(year, month, day, hour, minute, second, millis)) == dropped;
    ReplaceInDate(year, month, day, time);
    var replaced := year + (month + (day + ("-" + time)));
    var want := year + (month + (day + ("-" + (hour + (minute + second)))));
    FilenameRegroup(year, month, day, hour, minute, second, tail);
    assert replaced == want + tail;
    assert |want| == 15;
    assert replaced[..15] == want;
  }

  /** `a + (b + (c + ("-" + (d + (e + (f + t))))))` regrouped around its
      first fifteen characters. */
  lemma FilenameRegroup(a: string, b: string, c: string, d: string, e: string, f: string, t: string)
    ensures a + (b + (c + ("-" + (d + (e + (f + t)))))) == (a + (b + (c + ("-" + (d + (e + f)))))) + t
  {
    assert e + (f + t) == (e + f) + t;
    assert d + ((e + f) + t) == (d + (e + f)) + t;
    assert "-" + ((d + (e + f)) + t) == ("-" + (d + (e + f))) + t;
    assert c + (("-" + (d + (e + f))) + t) == (c + ("-" + (d + (e + f)))) + t;
    assert b + ((c + ("-" + (d + (e + f)))) + t) == (b + (c + ("-" + (d + (e + f))))) + t;
  }

  /** The date half of the rendering loses its dashes. */
  lemma DroppedDate(year: string, month: string, day: string, rest: string)
    requires Digits(year) && Digits(month) && Digits(day)
    ensures DropSeparators(year + ("-" + (month + ("-" + (day + ("T" + rest))))))
            == year + (month + (day + ("T" + DropSeparators(rest))))
  {
    DigitsPlain(year); DigitsPlain(month); DigitsPlain(day);
    DropPrefix("T", rest);
    DropPrefix(day, "T" + rest);
    DropDash(day + ("T" + rest));
    DropPrefix(month, "-" + (day + ("T" + rest)));
    DropDash(month + ("-" + (day + ("T" + rest))));
    DropPrefix(year, "-" + (month + ("-" + (day + ("T" + rest)))));
  }

  /** The time half of the rendering loses its colons. */
  lemma DroppedTime(hour: string, minute: string, second: string, millis: string)
    requires Digits(hour) && Digits(minute) && Digits(second) && Digits(millis)
    ensures var tail := "." + (millis + "Z");
            DropSeparators(hour + (":" + (minute + (":" + (second + tail)))))
            == hour + (minute + (second + tail))
  {
    var tail := "." + (millis + "Z");
    DigitsPlain(hour); DigitsPlain(minute); DigitsPlain(second); DigitsPlain(millis);
    assert '-' !in tail && ':' !in tail by {
      assert forall i | 1 <= i < |tail| - 1 :: tail[i] == millis[i - 1];
    }
    DropPlain(tail);
    DropPrefix(second, tail);
    DropColon(second + tail);
    DropPrefix(minute, ":" + (second + tail));
    DropColon(minute + (":" + (second + tail)));
    DropPrefix(hour, ":" + (minute + (":" + (second + tail))));
  }

  /** Digits hold no separator and no 'T'. */
  lemma DigitsPlain(s: string)
    requires Digits(s)
    ensures '-' !in s && ':' !in s && 'T' !in s
  {
    assert forall i | 0 <= i < |s| :: Strings.IsDigit(s[i]);
  }

  lemma DropDash(b: string)
    ensures DropSeparators("-" + b) == DropSeparators(b)
  {
    assert ("-" + b)[1..] == b;
  }

  lemma DropColon(b: string)
    ensures DropSeparators(":" + b) == DropSeparators(b)
  {
    assert (":" + b)[1..] == b;
  }

  /** Dropping separators leaves a separator-free prefix as it is. */
  lemma DropPrefix(a: string, b: string)
    requires '-' !in a && ':' !in a
    ensures DropSeparators(a + b) == a + DropSeparators(b)
  {
    DropAppend(a, b);
    DropPlain(a);
  }

  lemma {:induction false} DropPlain(s: string)
    requires '-' !in s && ':' !in s
    ensures DropSeparators(s) == s
    decreases |s|
  {
    if |s| > 0 {
      DropPlain(s[1..]);
    }
  }

  lemma {:induction false} DropAppend(a: string, b: string)
    ensures DropSeparators(a + b) == DropSeparators(a) + DropSeparators(b)
    decreases |a|
  {
    if |a| > 0 {
      assert (a + b)[1..] == a[1..] + b;
      DropAppend(a[1..], b);
    } else {
      assert a + b == b;
    }
  }

  /** The first 'T' after the date becomes '-'. */
  lemma ReplaceInDate(year: string, month: string, day: string, time: string)
    requires Digits(year) && Digits(month) && Digits(day)
    ensures ReplaceFirstT(year + (month + (day + ("T" + time)))) == year + (month + (day + ("-" + time)))
  {
    DigitsPlain(year); DigitsPlain(month); DigitsPlain(day);
    assert ("T" + time)[1..] == time;
    ReplacePlain(day, "T" + time);
    ReplacePlain(month, day + ("T" + time));
    ReplacePlain(year, month + (day + ("T" + time)));
  }

  /** A prefix without 'T' is kept, and the replacement happens after it. */
  lemma {:induction false} ReplacePlain(a: string, b: string)
    requires 'T' !in a
    ensures ReplaceFirstT(a + b) == a + ReplaceFirstT(b)
    decreases |a|
  {
    if |a| > 0 {
      assert (a + b)[1..] == a[1..] + b;
      ReplacePlain(a[1..], b);
    } else {
      assert a + b == b;
    }
  }

  // ---------------------------------------------------------------------
  // The file name

  /** `generateFilename`; `toIso` renders a time in milliseconds the way
      `toISOString` does and `uuid` is the random UUID. None when the
      gesture type makes `toLowerCase` throw. */
  function GenerateFilename(gestureType: Js.Value, nowMs: int, toIso: int -> string, uuid: string): (r: Js.Option<string>)
    ensures r.None? <==> CleanType(gestureType).None?
    ensures r.Some? ==>
              r.value == Datetime(toIso(nowMs + MytOffset)) + "-" + CleanType(gestureType).value + "-" +
                         Prefix(uuid, 8) + ".png"
  {
    var datetime := Datetime(toIso(nowMs + MytOffset));
    var id := Prefix(uuid, 8);
    match CleanType(gestureType)
    case None => Js.None
    case Some(t) => Js.Some(datetime + "-" + t + "-" + id + ".png")
  }

  /** With a well-formed clock rendering and a full UUID the name is
      `YYYYMMDD-HHmmss-{type}-{first 8 of the UUID}.png`, and the type
      segment is never empty. */
  lemma FilenameShape(gestureType: Js.Value, nowMs: int, toIso: int -> string, uuid: string,
                      year: string, month: string, day: string,
                      hour: string, minute: string, second: string, millis: string)
    requires CleanType(gestureType).Some?
    requires |year| == 4 && |month| == 2 && |day| == 2 && |hour| == 2 && |minute| == 2 && |second| == 2
    requires Digits(year) && Digits(month) && Digits(day) && Digits(hour) && Digits(minute) && Digits(second)
    requires Digits(millis)
    requires toIso(nowMs + MytOffset) == IsoString(year, month, day, hour, minute, second, millis)
    requires |uuid| >= 8
    ensures GenerateFilename(gestureType, nowMs, toIso, uuid).Some?
    ensures var name := GenerateFilename(gestureType, nowMs, toIso, uuid).value;
            var t := CleanType(gestureType).value;
            && name == year + (month + (day + ("-" + (hour + (minute + second))))) + "-" + t + "-" + uuid[..8] + ".png"
            && |name| == 15 + 1 + |t| + 1 + 8 + 4
            && t != ""
  {
    IsoDatetime(year, month, day, hour, minute, second, millis);
  }

  // ---------------------------------------------------------------------
  // The handler

  /** The host the handler names the stored object under. */
  const UploadRegion := "us-east-1"
  const UploadHost := S3Key.Bucket + ".s3." + UploadRegion + ".amazonaws.com"

  /** `https://s3-ai-2025.s3.us-east-1.amazonaws.com/${s3Key}` */
  function ObjectUrl(key: string): string {
    "https://" + UploadHost + "/" + key
  }

  /** The URL given back names the object: read back through the storage
      handlers' key extraction, its host and path give the stored key. */
  lemma ObjectUrlNamesKey(key: string)
    ensures S3Key.ExtractS3Key(Js.Some(S3Key.UrlParts(UploadHost, "/" + key))) == S3Key.Key(key)
  {
    S3Key.VirtualHostedRoundTrip(UploadRegion, key);
  }

  /** What downloading the image gave: the response status and, when it is
      ok, the byte count; or an error. */
  datatype Download = Response(ok: bool, status: int, size: nat) | DownloadFailed

  datatype UploadReply =
    | Uploaded(s3Url: string, s3Key: string, filename: string, size: nat)
    | UploadError(status: int, error: string)

  /** The upload handler; `download` fetches the image URL and `put` stores
      the bytes under a key (false when S3 refuses). */
  function HandleUpload(verb: string, body: Js.Value, download: Js.Value -> Download, put: string -> bool,
                        nowMs: int, toIso: int -> string, uuid: string): (r: UploadReply)
    ensures verb != "POST" ==> r == UploadError(405, "Only POST allowed")
    ensures verb == "POST" && Js.Property(body, "imageUrl").Some? && !Js.Truthy(Js.Property(body, "imageUrl").value) ==>
              r == UploadError(400, "imageUrl is required")
    ensures r.UploadError? ==> r.status in {405, 400, 500}
    ensures r.UploadError? && r.status == 400 <==>
              verb == "POST" && Js.Property(body, "imageUrl").Some? && !Js.Truthy(Js.Property(body, "imageUrl").value)
    ensures r.UploadError? && r.status != 405 && r.status != 400 ==> r == UploadError(500, "Failed to upload image to S3")
    ensures r.Uploaded? <==>
              && verb == "POST"
              && Js.Property(body, "imageUrl").Some? && Js.Truthy(Js.Property(body, "imageUrl").value)
              && var got := download(Js.Property(body, "imageUrl").value);
              && got.Response? && got.ok
              && var name := GenerateFilename(Js.Property(body, "gestureType").value, nowMs, toIso, uuid);
              && name.Some? && put(name.value)
    ensures r.Uploaded? ==>
              && verb == "POST"
              && Js.Property(body, "imageUrl").Some? && Js.Truthy(Js.Property(body, "imageUrl").value)
              && var got := download(Js.Property(body, "imageUrl").value);
              && got.Response? && got.ok && r.size == got.size
              && GenerateFilename(Js.Property(body, "gestureType").value, nowMs, toIso, uuid) == Js.Some(r.filename)
              && r.s3Key == r.filename
              && put(r.s3Key)
              && r.s3Url == ObjectUrl(r.s3Key)
  {
    if verb != "POST" then UploadError(405, "Only POST allowed")
    else
      match Js.Property(body, "imageUrl")
      case None => UploadError(500, "Failed to upload image to S3")
      case Some(imageUrl) =>
        if !Js.Truthy(imageUrl) then UploadError(400, "imageUrl is required")
        else
          match download(imageUrl)
          case DownloadFailed => UploadError(500, "Failed to upload image to S3")
          case Response(ok, status, size) =>
            if !ok then UploadError(500, "Failed to upload image to S3")
            else
              match GenerateFilename(Js.Property(body, "gestureType").value, nowMs, toIso, uuid)
              case None => UploadError(500, "Failed to upload image to S3")
              case Some(filename) =>
                if put(filename) then Uploaded(ObjectUrl(filename), filename, filename, size)
                else UploadError(500, "Failed to upload image to S3")
  }
}
