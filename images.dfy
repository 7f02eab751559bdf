/** The legacy image-generation proxy: it checks the prompt, clamps every
    other parameter to an allow-list or a range, and forwards the request
    to the image service, passing its status back. */
module Images {
  import Js
  import Security

  const Unavailable := "Service temporarily unavailable"

  const Models: seq<string> := ["dall-e-2", "dall-e-3"]
  const Sizes: seq<string> := ["256x256", "512x512", "1024x1024", "1792x1024", "1024x1792"]
  const Qualities: seq<string> := ["standard", "hd"]

  /** The body sent to the image service. */
  datatype ImageRequest = ImageRequest(prompt: string, model: string, size: string, quality: string, n: int)

  /** What the image service did: answer with a status, or fail (the call
      throws, or its non-empty body is not JSON). */
  datatype Upstream = Answered(status: int) | UpstreamFailed

  datatype ImagesReply = Forwarded(request: ImageRequest, status: int) | ImagesError(status: int, error: string)

  /** `typeof n === 'number' && n >= 1 && n <= 4 ? n : 1` */
  function ImageCount(n: Js.Value): (r: int)
    ensures 1 <= r <= 4
    ensures n.Num? && 1 <= n.n <= 4 ==> r == n.n
    ensures !(n.Num? && 1 <= n.n <= 4) ==> r == 1
  {
    if n.Num? && 1 <= n.n <= 4 then n.n else 1
  }

  /** The validated request for a body that passed the prompt checks. */
  function BuildRequest(body: Js.Object, prompt: string): (q: ImageRequest)
    ensures q.prompt == prompt
    ensures q.model in Models && q.size in Sizes && q.quality in Qualities && 1 <= q.n <= 4
    ensures Js.Get(body, "model").Str? && Js.Get(body, "model").s in Models ==> q.model == Js.Get(body, "model").s
    ensures !(Js.Get(body, "model").Str? && Js.Get(body, "model").s in Models) ==> q.model == "dall-e-3"
    ensures Js.Get(body, "size").Str? && Js.Get(body, "size").s in Sizes ==> q.size == Js.Get(body, "size").s
    ensures !(Js.Get(body, "size").Str? && Js.Get(body, "size").s in Sizes) ==> q.size == "1024x1024"
    ensures Js.Get(body, "quality").Str? && Js.Get(body, "quality").s in Qualities ==> q.quality == Js.Get(body, "quality").s
    ensures !(Js.Get(body, "quality").Str? && Js.Get(body, "quality").s in Qualities) ==> q.quality == "standard"
    ensures q.n == ImageCount(Js.Get(body, "n"))
  {
    ImageRequest(
      prompt,
      Js.OneOf(Js.Get(body, "model"), Models, "dall-e-3"),
      Js.OneOf(Js.Get(body, "size"), Sizes, "1024x1024"),
      Js.OneOf(Js.Get(body, "quality"), Qualities, "standard"),
      ImageCount(Js.Get(body, "n")))
  }

  /** `legacyImagesHandler`; `upstream` is the image service. */
  function LegacyImages(verb: string, body: Js.Object, upstream: ImageRequest -> Upstream): (r: ImagesReply)
    ensures verb != "POST" ==> r == ImagesError(405, "Method not allowed")
    ensures verb == "POST" && Security.IsMissing(body, "prompt") ==> r == ImagesError(500, Unavailable)
    // a prompt whose toString throws ends in the catch block too
    ensures verb == "POST" && Security.CheckThrows(body, "prompt") ==> r == ImagesError(500, Unavailable)
    ensures (&& verb == "POST" && Security.Present(body, "prompt")
             && |Security.SanitizeString(Js.Get(body, "prompt"), 1000)| < 10) ==>
              r == ImagesError(400, "Prompt too short or invalid")
    ensures r.Forwarded? <==>
              && verb == "POST" && Security.Present(body, "prompt")
              && |Security.SanitizeString(Js.Get(body, "prompt"), 1000)| >= 10
              && upstream(BuildRequest(body, Security.SanitizeString(Js.Get(body, "prompt"), 1000))).Answered?
    ensures r.Forwarded? ==>
              && r.request == BuildRequest(body, Security.SanitizeString(Js.Get(body, "prompt"), 1000))
              && 10 <= |r.request.prompt| <= 1000
              && r.status == upstream(r.request).status
    ensures r.ImagesError? ==> r.status in {405, 500, 400}
    ensures (&& verb == "POST" && Security.Present(body, "prompt")
             && |Security.SanitizeString(Js.Get(body, "prompt"), 1000)| >= 10
             && upstream(BuildRequest(body, Security.SanitizeString(Js.Get(body, "prompt"), 1000))).UpstreamFailed?) ==>
              r == ImagesError(500, Unavailable)
    // a present prompt that is not a string sanitises to "" and is refused
    ensures verb == "POST" && Security.Present(body, "prompt") && !Js.Get(body, "prompt").Str? ==>
              r == ImagesError(400, "Prompt too short or invalid")
  {
    if verb != "POST" then ImagesError(405, "Method not allowed")
    else if Security.ValidateRequired(body, ["prompt"]).Some? then ImagesError(500, Unavailable)
    else
      var prompt := Security.SanitizeString(Js.Get(body, "prompt"), 1000);
      if |prompt| < 10 then ImagesError(400, "Prompt too short or invalid")
      else
        var q := BuildRequest(body, prompt);
        match upstream(q)
        case Answered(status) => Forwarded(q, status)
        case UpstreamFailed => ImagesError(500, Unavailable)
  }
}
