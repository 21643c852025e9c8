/** Garment detection (api/image-generation.js): the description chosen for
    a detection prompt, the classification of one candidate's reply, the
    walk over the candidate list, and the post-processing of the answer into
    a thumbnail. */
module Detection {
  import opened Values
  import opened Gemini

  // ---------------------------------------------------------------------
  // The prompt.

  /** The entries of `garmentDescriptions`, by the key they are stored
      under (api/image-generation.js:33-47). */
  datatype Description =
    | HeavyOuter | LightOuter | MidLayer | MainTop | BaseInner | Lower
    | AnyOuter | AnyInner | AnyGarment

  const Descriptions: map<string, Description> := map[
    "heavyOuter" := HeavyOuter, "lightOuter" := LightOuter,
    "midLayer" := MidLayer, "mainTop" := MainTop, "baseInner" := BaseInner,
    "bottoms" := Lower, "outer" := AnyOuter, "inner" := AnyInner,
    "default" := AnyGarment]

  /** `descriptions[category] || descriptions[garmentType] || descriptions['default']`;
      every entry is a non-empty string, so the first key present wins. */
  function Describe(garmentType: string, category: string): Description {
    if category in Descriptions then Descriptions[category]
    else if garmentType in Descriptions then Descriptions[garmentType]
    else Descriptions["default"]
  }

  /** The category takes precedence over the garment type, and the generic
      entry is the last resort. */
  lemma DescribePrecedence(garmentType: string, category: string)
    ensures category in Descriptions ==> Describe(garmentType, category) == Descriptions[category]
    ensures category !in Descriptions && garmentType in Descriptions ==> Describe(garmentType, category) == Descriptions[garmentType]
    ensures category !in Descriptions && garmentType !in Descriptions ==> Describe(garmentType, category) == AnyGarment
  {
  }

  /** The pipeline passes the category `'default'` (app.js:200), so every
      detection prompt asks for the generic garment, whatever the slot. */
  lemma PipelinePromptsAreGeneric(garmentType: string)
    ensures Describe(garmentType, "default") == AnyGarment
  {
  }

  /** The request parts: the photo first when it could be read, then the
      prompt (api/image-generation.js:104-120). */
  function DetectionRequest(prompt: string, image: Option<string>): (ps: seq<RequestPart>)
    ensures |ps| >= 1 && ps[|ps| - 1] == TextPart(prompt)
    ensures image.Some? <==> |ps| == 2
    ensures image.Some? ==> ps[0] == JpegPart(image.value)
  {
    match image
    case Some(data) => [JpegPart(data), TextPart(prompt)]
    case None => [TextPart(prompt)]
  }

  // ---------------------------------------------------------------------
  // One candidate's reply.

  /** The answer for a garment that is not in the photo. */
  const NotFound := "NOT_FOUND"

  /** The candidates, in the order they are tried (api/image-generation.js:93-102). */
  const DetectionModels: seq<string> := [
    "gemini-2.5-flash", "gemini-2.5-pro", "gemini-3-pro-preview",
    "gemini-3-flash-preview", "gemini-3-pro-image-preview",
    "gemini-2.0-flash-exp-image-generation", "gemini-2.5-flash-image",
    "nano-banana-pro-preview"]

  /** What the loop does with one reply: `continue`, or return a value. */
  datatype Verdict = Skip | Answer(value: string)

  /** The text a part adds to `textResponse`: its text if truthy. */
  function TextOf(p: ResponsePart): string {
    if Truthy(p.text) then p.text.value else ""
  }

  /** `textResponse` after the loop over the parts. */
  function AllText(ps: seq<ResponsePart>): string {
    if ps == [] then "" else AllText(ps[..|ps| - 1]) + TextOf(ps[|ps| - 1])
  }

  /** Every part's text is inside the concatenation. */
  lemma {:induction false} AllTextContainsPart(ps: seq<ResponsePart>, k: nat)
    requires k < |ps|
    ensures exists x, y :: AllText(ps) == x + TextOf(ps[k]) + y
  {
    var last := |ps| - 1;
    if k == last {
      assert AllText(ps) == AllText(ps[..last]) + TextOf(ps[k]) + "";
    } else {
      assert ps[..last][k] == ps[k];
      AllTextContainsPart(ps[..last], k);
      var x, y :| AllText(ps[..last]) == x + TextOf(ps[k]) + y;
      assert AllText(ps) == x + TextOf(ps[k]) + (y + TextOf(ps[last]));
    }
  }

  /** The markers of a negative answer (api/image-generation.js:182-187):
      `NO`, `NOT_FOUND` or `NOT FOUND` in the upper-cased text, or one of
      three Korean phrases (none, not detected, there is none) in the text. */
  predicate SaysAbsent(text: string) {
    Contains(Upper(text), "NO") || Contains(Upper(text), "NOT_FOUND")
    || Contains(Upper(text), "NOT FOUND")
    || Contains(text, "\U{C5C6}\U{C74C}")
    || Contains(text, "\U{AC10}\U{C9C0}\U{B418}\U{C9C0} \U{C54A}")
    || Contains(text, "\U{C5C6}\U{C2B5}\U{B2C8}\U{B2E4}")
  }

  /** The two longer English markers add nothing: both contain `NO`. */
  lemma SaysAbsentReduces(text: string)
    ensures SaysAbsent(text) <==>
      Contains(Upper(text), "NO")
      || Contains(text, "\U{C5C6}\U{C74C}")
      || Contains(text, "\U{AC10}\U{C9C0}\U{B418}\U{C9C0} \U{C54A}")
      || Contains(text, "\U{C5C6}\U{C2B5}\U{B2C8}\U{B2E4}")
  {
    var u := Upper(text);
    if Contains(u, "NOT_FOUND") {
      var i := ContainsWitness(u, "NOT_FOUND");
      assert u[i..i + 2] == u[i..i + 9][..2];
      ContainsAt(u, "NO", i);
    }
    if Contains(u, "NOT FOUND") {
      var i := ContainsWitness(u, "NOT FOUND");
      assert u[i..i + 2] == u[i..i + 9][..2];
      ContainsAt(u, "NO", i);
    }
  }

  /** `imageUrl.includes('placeholder') || imageUrl.includes('imgur.com/result_')` */
  predicate IsPlaceholder(url: string) {
    Contains(url, "placeholder") || Contains(url, "imgur.com/result_")
  }

  /** What the loop body makes of one candidate's reply
      (api/image-generation.js:152-240). */
  function Classify(reply: Reply): Verdict {
    match reply
    case Threw(e) =>
      if e.name == AbortErrorName then Skip
      else if Contains(e.message, NotFound)
           || Contains(e.message, "\U{C758}\U{C0C1}\U{C774} \U{C0AC}\U{C9C4}\U{C5D0} \U{C5C6}\U{C2B5}\U{B2C8}\U{B2E4}")
      then Answer(NotFound)
      else Skip
    case Responded(status, parts) =>
      if !StatusOk(status) || parts.None? then Skip
      else
        var text := AllText(parts.value);
        if text != "" && SaysAbsent(text) then Answer(NotFound)
        else match FirstInlineImage(parts.value)
          case Some(url) => Answer(url)
          case None =>
            if text == "" then Skip
            else match FirstImageUrl(text)
              case Some(url) => if IsPlaceholder(url) then Skip else Answer(url)
              case None => Skip
  }

  /** The priority of the classification, case by case. */
  lemma ClassifyCases(reply: Reply)
    ensures Classify(reply).Answer? ==>
      Classify(reply).value == NotFound
      || StartsWith(Classify(reply).value, "data:image/")
      || (LooksLikeImageUrl(Classify(reply).value) && !IsPlaceholder(Classify(reply).value))
    ensures reply.Threw? && reply.error.name == AbortErrorName ==> Classify(reply) == Skip
    ensures reply.Threw? && reply.error.name != AbortErrorName ==>
      (Classify(reply) == Answer(NotFound) <==>
         Contains(reply.error.message, NotFound)
         || Contains(reply.error.message, "\U{C758}\U{C0C1}\U{C774} \U{C0AC}\U{C9C4}\U{C5D0} \U{C5C6}\U{C2B5}\U{B2C8}\U{B2E4}"))
    ensures reply.Threw? ==> Classify(reply) == Skip || Classify(reply) == Answer(NotFound)
    ensures reply.Responded? && !StatusOk(reply.status) ==> Classify(reply) == Skip
    ensures reply.Responded? && StatusOk(reply.status) && reply.parts.Some? ==>
      (SaysAbsent(AllText(reply.parts.value)) ==> Classify(reply) == Answer(NotFound))
      && (!SaysAbsent(AllText(reply.parts.value)) && FirstInlineImage(reply.parts.value).Some? ==>
            Classify(reply) == Answer(FirstInlineImage(reply.parts.value).value))
    ensures reply.Responded? && reply.parts.None? ==> Classify(reply) == Skip
    ensures (reply.Responded? && StatusOk(reply.status) && reply.parts.Some?
             && !SaysAbsent(AllText(reply.parts.value)) && FirstInlineImage(reply.parts.value).None?) ==>
        var t := AllText(reply.parts.value);
        Classify(reply) ==
          if t != "" && FirstImageUrl(t).Some? && !IsPlaceholder(FirstImageUrl(t).value)
          then Answer(FirstImageUrl(t).value) else Skip
  {
    if reply.Responded? && StatusOk(reply.status) && reply.parts.Some? {
      var text := AllText(reply.parts.value);
      if SaysAbsent(text) {
        assert text != "" by {
          assert !Contains(Upper(""), "NO");
        }
      }
    }
  }

  /** A negative word in any one part wins over an image in another part:
      the answer is `NOT_FOUND` even though the reply holds an image. */
  lemma NegativeTextBeatsImage(status: int, ps: seq<ResponsePart>, k: nat)
    requires StatusOk(status) && k < |ps| && Contains(Upper(TextOf(ps[k])), "NO")
    ensures Classify(Responded(status, Some(ps))) == Answer(NotFound)
  {
    AllTextContainsPart(ps, k);
    var x, y :| AllText(ps) == x + TextOf(ps[k]) + y;
    UpperAppend(x + TextOf(ps[k]), y);
    UpperAppend(x, TextOf(ps[k]));
    ContainsInfix(Upper(x), Upper(TextOf(ps[k])), Upper(y), "NO");
    ClassifyCases(Responded(status, Some(ps)));
  }

  /** The marker is a bare substring: an affirmative answer that happens to
      contain the letters `no` ("YES, I know") reads as `NOT_FOUND`. */
  lemma AffirmativeWithNoReadsAbsent(status: int)
    requires StatusOk(status)
    ensures Classify(Responded(status, Some([ResponsePart(Some("YES, I know"), None)]))) == Answer(NotFound)
  {
    var ps := [ResponsePart(Some("YES, I know"), None)];
    assert TextOf(ps[0]) == "YES, I know";
    assert Upper("YES, I know")[8..10] == "NO";
    ContainsAt(Upper("YES, I know"), "NO", 8);
    NegativeTextBeatsImage(status, ps, 0);
  }

  /** The loop body, with `textResponse` built by `+=` over the parts. */
  method ClassifyReply(reply: Reply) returns (v: Verdict)
    ensures v == Classify(reply)
  {
    match reply {
      case Threw(e) =>
        v := Classify(reply);
      case Responded(status, parts) =>
        if !StatusOk(status) || parts.None? {
          return Skip;
        }
        var ps := parts.value;
        var text := "";
        var i := 0;
        while i < |ps|
          invariant 0 <= i <= |ps|
          invariant text == AllText(ps[..i])
        {
          if Truthy(ps[i].text) {
            text := text + ps[i].text.value;
          }
          assert ps[..i + 1][..i] == ps[..i];
          i := i + 1;
        }
        assert ps[..i] == ps;
        if text != "" && SaysAbsent(text) {
          return Answer(NotFound);
        }
        var image := FirstInlineImage(ps);
        if image.Some? {
          return Answer(image.value);
        }
        if text != "" {
          var url := FirstImageUrl(text);
          if url.Some? && !IsPlaceholder(url.value) {
            return Answer(url.value);
          }
        }
        return Skip;
    }
  }

  // ---------------------------------------------------------------------
  // The walk over the candidates.

  /** The value `callNanoBananaAPI` returns given every candidate's reply,
      in list order: the first answer, or null when all are skipped. */
  function FirstAnswer(replies: seq<Reply>): Option<string> {
    if replies == [] then None
    else match Classify(replies[0])
      case Answer(value) => Some(value)
      case Skip => FirstAnswer(replies[1..])
  }

  /** How many candidates are contacted: up to and including the first that
      answers. */
  function Consulted(replies: seq<Reply>): (n: nat)
    ensures n <= |replies|
  {
    if replies == [] then 0
    else if Classify(replies[0]).Answer? then 1
    else 1 + Consulted(replies[1..])
  }

  /** The first answer is the reply of the last candidate contacted, and
      every candidate before it was skipped; with no answer, every
      candidate was contacted and skipped. */
  lemma {:induction false} FirstAnswerIsFirst(replies: seq<Reply>)
    ensures FirstAnswer(replies).Some? ==>
      0 < Consulted(replies)
      && Classify(replies[Consulted(replies) - 1]) == Answer(FirstAnswer(replies).value)
    ensures forall k :: 0 <= k < Consulted(replies) - 1 ==> Classify(replies[k]).Skip?
    ensures FirstAnswer(replies).None? <==> forall k :: 0 <= k < |replies| ==> Classify(replies[k]).Skip?
    ensures FirstAnswer(replies).None? ==> Consulted(replies) == |replies|
  {
    if replies != [] && Classify(replies[0]).Skip? {
      var rest := replies[1..];
      FirstAnswerIsFirst(rest);
      assert forall k :: 1 <= k < |replies| ==> replies[k] == rest[k - 1];
    }
  }

  /** `callNanoBananaAPI`: it throws only when no API key is set. */
  function NanoBanana(apiKeySet: bool, replies: seq<Reply>): Result<Option<string>, Failure> {
    if !apiKeySet then Failure(ApiKeyMissing) else Success(FirstAnswer(replies))
  }

  /** `callNanoBananaAPI` (api/image-generation.js:86-246): the candidates are
      contacted in list order, each at most once, and the walk stops at the
      first answer. `replies[k]` is what candidate `k` would reply; `tried`
      lists the candidates contacted; `request` is the parts sent to each of
      them. `image` is the encoding of the photo, None when there is no
      photo or reading it throws. */
  method CallNanoBananaApi(apiKeySet: bool, prompt: string, image: Option<string>, replies: seq<Reply>)
    returns (r: Result<Option<string>, Failure>, tried: seq<string>, request: seq<RequestPart>)
    requires |replies| == |DetectionModels|
    ensures r == NanoBanana(apiKeySet, replies)
    ensures tried == if apiKeySet then DetectionModels[..Consulted(replies)] else []
    ensures request == if apiKeySet then DetectionRequest(prompt, image) else []
  {
    if !apiKeySet {
      return Failure(ApiKeyMissing), [], [];
    }
    request := [TextPart(prompt)];
    if image.Some? {
      request := [JpegPart(image.value)] + request;
    }
    tried := [];
    var i := 0;
    while i < |DetectionModels|
      invariant 0 <= i <= |DetectionModels|
      invariant FirstAnswer(replies) == FirstAnswer(replies[i..])
      invariant Consulted(replies) == i + Consulted(replies[i..])
      invariant tried == DetectionModels[..i]
    {
      tried := tried + [DetectionModels[i]];
      var v := ClassifyReply(replies[i]);
      if v.Answer? {
        assert replies[i..][0] == replies[i];
        return Success(Some(v.value)), tried, request;
      }
      assert replies[i..][1..] == replies[i + 1..];
      i := i + 1;
    }
    return Success(None), tried, request;
  }

  /** Scenario: every candidate times out, so the answer is null after all
      eight were contacted. */
  lemma AllTimeoutsGiveNull(replies: seq<Reply>)
    requires |replies| == |DetectionModels|
    requires forall k :: 0 <= k < |replies| ==> replies[k] == Threw(JsError(AbortErrorName, "signal is aborted without reason"))
    ensures NanoBanana(true, replies) == Success(None)
    ensures Consulted(replies) == 8
  {
    FirstAnswerIsFirst(replies);
  }

  // ---------------------------------------------------------------------
  // The thumbnail.

  /** Hosts whose URLs cannot be fetched (api/image-generation.js:323). */
  const UnreachableHosts: seq<string> := ["replicate.delivery", "file-cdn.flyai.com", "file-s3.omniwear.com"]

  predicate OnUnreachableHost(url: string) {
    exists k :: 0 <= k < |UnreachableHosts| && Contains(url, UnreachableHosts[k])
  }

  /** What fetching a URL produced: an exception, or a response with its
      `ok` flag, the blob's media type and the handle `createObjectURL`
      would give the blob. */
  datatype Download = FetchFailed | Fetched(ok: bool, blobType: string, handle: string)

  /** `convertExternalUrlToBlob` (api/image-generation.js:320-359). */
  function ConvertExternalUrlToBlob(url: string, download: Download): (r: Option<string>)
    ensures r.Some? ==> StartsWith(r.value, "blob:")
    ensures r.Some? <==>
      !OnUnreachableHost(url) && download.Fetched? && download.ok && StartsWith(download.blobType, "image/")
  {
    if OnUnreachableHost(url) then None
    else match download
      case FetchFailed => None
      case Fetched(ok, blobType, handle) =>
        if !ok || !StartsWith(blobType, "image/") then None else Some("blob:" + handle)
  }

  /** A denylisted URL is refused whatever the network would have done. */
  lemma UnreachableHostNeverFetched(url: string, d1: Download, d2: Download)
    requires OnUnreachableHost(url)
    ensures ConvertExternalUrlToBlob(url, d1) == ConvertExternalUrlToBlob(url, d2) == None
  {
  }

  /** What the environment does for one thumbnail: the replies of the
      candidates and the download of an external URL answer. */
  datatype ThumbnailScript = ThumbnailScript(replies: seq<Reply>, download: Download)

  predicate ValidScript(s: ThumbnailScript) {
    |s.replies| == |DetectionModels|
  }

  /** What `generateGarmentThumbnail` makes of the detector's answer
      (api/image-generation.js:379-399): nothing for null or a negative
      answer, a handle for a fetchable external URL, otherwise the answer as
      it is. */
  function Refine(answer: Option<string>, download: Download): Field {
    if answer.None? || answer.value == "" || Contains(answer.value, NotFound) then None
    else
      var result := answer.value;
      if StartsWith(result, "http://") || StartsWith(result, "https://") then
        match ConvertExternalUrlToBlob(result, download)
        case Some(blobUrl) => Some(blobUrl)
        case None => Some(result)
      else Some(result)
  }

  /** `generateGarmentThumbnail` (api/image-generation.js:364-410): no photo
      or a thrown detection (no API key) gives null. */
  function GarmentThumbnail(original: Field, apiKeySet: bool, s: ThumbnailScript): Field
    requires ValidScript(s)
  {
    if !Truthy(original) then None
    else match NanoBanana(apiKeySet, s.replies)
      case Failure(_) => None
      case Success(answer) => Refine(answer, s.download)
  }

  lemma NotFoundContainsItself()
    ensures Contains(NotFound, NotFound)
  {
    ContainsAt(NotFound, NotFound, 0);
  }

  /** A thumbnail is always an image reference: an inline image, a
      `blob:` handle or a matched image URL; without a photo, without an
      API key or on a negative answer there is none. */
  lemma GarmentThumbnailShape(original: Field, apiKeySet: bool, s: ThumbnailScript)
    requires ValidScript(s)
    ensures var r := GarmentThumbnail(original, apiKeySet, s);
      && (!Truthy(original) || !apiKeySet ==> r.None?)
      && (FirstAnswer(s.replies) == Some(NotFound) ==> r.None?)
      && (r.Some? ==> StartsWith(r.value, "data:image/") || StartsWith(r.value, "blob:") || LooksLikeImageUrl(r.value))
  {
    FirstAnswerIsFirst(s.replies);
    NotFoundContainsItself();
    if FirstAnswer(s.replies).Some? {
      ClassifyCases(s.replies[Consulted(s.replies) - 1]);
    }
  }

  /** An external URL that cannot be turned into a handle is kept as it is. */
  lemma RefineKeepsUnfetchedUrl(url: string, download: Download)
    requires !Contains(url, NotFound)
    requires StartsWith(url, "http://") || StartsWith(url, "https://")
    requires ConvertExternalUrlToBlob(url, download).None?
    ensures Refine(Some(url), download) == Some(url)
  {
  }

  /** Inline images are passed through unchanged. */
  lemma RefineKeepsInline(url: string, download: Download)
    requires !Contains(url, NotFound) && StartsWith(url, "data:")
    ensures Refine(Some(url), download) == Some(url)
  {
    assert url[0] == url[..5][0];
  }

  /** The scheme test after matching is case-sensitive while the expression
      is not: an answer `HTTPS://...` is returned without being turned into
      a handle. */
  lemma UpperCaseSchemeIsNotConverted(url: string, download: Download)
    requires !Contains(url, NotFound) && StartsWith(url, "HTTPS://")
    ensures Refine(Some(url), download) == Some(url)
  {
    assert url[0] == url[..8][0];
  }
}
