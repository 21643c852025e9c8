/** The try-on composition (app.js:438-619): which garments are worn and in
    what order, the request sent to the image model, and the fallback over
    the candidate models with its error propagation. */
module Composition {
  import opened Values
  import opened Layers
  import opened Gemini

  // ---------------------------------------------------------------------
  // The garments to wear.

  /** One entry of `garmentsToWear`: a position and the image URL it holds. */
  datatype Garment = Garment(slot: Slot, url: string)

  /** `order.filter(layer => slots[c]?.[i]).map(layer => ({...layer, url}))` */
  function Wear(o: Outfit, order: seq<Slot>): (g: seq<Garment>)
    ensures |g| <= |order|
  {
    if order == [] then []
    else
      var s := order[0];
      (if Truthy(SlotAt(o, s)) then [Garment(s, SlotAt(o, s).value)] else []) + Wear(o, order[1..])
  }

  /** `a` comes strictly before `b` in `order`. */
  predicate Before(order: seq<Slot>, a: Slot, b: Slot) {
    exists p, q :: 0 <= p < q < |order| && order[p] == a && order[q] == b
  }

  /** The filter keeps exactly the set positions, with their URLs, and keeps
      them in the order of `order`. */
  lemma {:induction false} WearIsFilter(o: Outfit, order: seq<Slot>)
    ensures forall g :: g in Wear(o, order) ==> g.slot in order && Truthy(SlotAt(o, g.slot)) && SlotAt(o, g.slot) == Some(g.url)
    ensures forall s :: s in order && Truthy(SlotAt(o, s)) ==> Garment(s, SlotAt(o, s).value) in Wear(o, order)
    ensures forall j, k :: 0 <= j < k < |Wear(o, order)| ==> Before(order, Wear(o, order)[j].slot, Wear(o, order)[k].slot)
  {
    if order != [] {
      var s := order[0];
      var rest := Wear(o, order[1..]);
      WearIsFilter(o, order[1..]);
      var g := Wear(o, order);
      forall j, k | 0 <= j < k < |g| ensures Before(order, g[j].slot, g[k].slot) {
        var h := |g| - |rest|;
        assert g[k] == rest[k - h];
        assert g[k].slot in order[1..];
        var q :| 0 <= q < |order[1..]| && order[1..][q] == g[k].slot;
        if j < h {
          assert g[j].slot == s == order[0];
          assert order[q + 1] == g[k].slot;
        } else {
          assert g[j] == rest[j - h];
          assert Before(order[1..], rest[j - h].slot, rest[k - h].slot);
          var p', q' :| 0 <= p' < q' < |order[1..]| && order[1..][p'] == rest[j - h].slot && order[1..][q'] == rest[k - h].slot;
          assert order[p' + 1] == g[j].slot && order[q' + 1] == g[k].slot;
        }
      }
    }
  }

  /** `garmentsToWear` over the wearing order. */
  function GarmentsToWear(o: Outfit): seq<Garment> {
    Wear(o, WearingOrder)
  }

  /** The garments are exactly the set positions within capacity, each
      once, innermost first (strictly increasing layer numbers). */
  lemma GarmentsToWearIsLayered(o: Outfit)
    ensures forall g :: g in GarmentsToWear(o) ==> InCapacity(g.slot) && SlotAt(o, g.slot) == Some(g.url) && g.url != ""
    ensures forall s :: InCapacity(s) && Truthy(SlotAt(o, s)) ==> Garment(s, SlotAt(o, s).value) in GarmentsToWear(o)
    ensures forall j, k :: 0 <= j < k < |GarmentsToWear(o)| ==>
      LayerIndexOf(GarmentsToWear(o)[j].slot) < LayerIndexOf(GarmentsToWear(o)[k].slot)
  {
    WearIsFilter(o, WearingOrder);
    WearingOrderIsBijection();
    var g := GarmentsToWear(o);
    forall j, k | 0 <= j < k < |g| ensures LayerIndexOf(g[j].slot) < LayerIndexOf(g[k].slot) {
      var p, q :| 0 <= p < q < |WearingOrder| && WearingOrder[p] == g[j].slot && WearingOrder[q] == g[k].slot;
      assert WearingOrder[LayerIndexOf(g[j].slot) - 1] == WearingOrder[p];
      assert WearingOrder[LayerIndexOf(g[k].slot) - 1] == WearingOrder[q];
    }
  }

  /** The try-on is refused exactly when no position within capacity holds
      an image. */
  lemma NothingToWear(o: Outfit)
    ensures GarmentsToWear(o) == [] <==> forall s :: InCapacity(s) ==> !Truthy(SlotAt(o, s))
  {
    GarmentsToWearIsLayered(o);
    if GarmentsToWear(o) != [] {
      assert GarmentsToWear(o)[0] in GarmentsToWear(o);
    }
  }

  function Urls(g: seq<Garment>): (r: seq<string>)
    ensures |r| == |g| && forall k :: 0 <= k < |g| ==> r[k] == g[k].url
  {
    seq(|g|, k requires 0 <= k < |g| => g[k].url)
  }

  // ---------------------------------------------------------------------
  // The request.

  /** `Promise.all(urls.map(imageUrlToBase64))`: `encode(u)` is the payload
      `imageUrlToBase64` would give, or None where it throws; one failure
      rejects the whole conversion. */
  function EncodeAll(urls: seq<string>, encode: string -> Option<string>): (r: Option<seq<string>>)
    ensures r.Some? <==> forall k :: 0 <= k < |urls| ==> encode(urls[k]).Some?
    ensures r.Some? ==> |r.value| == |urls| && forall k :: 0 <= k < |urls| ==> r.value[k] == encode(urls[k]).value
  {
    if urls == [] then Some([])
    else match (encode(urls[0]), EncodeAll(urls[1..], encode))
      case (Some(b), Some(bs)) =>
        var r := [b] + bs;
        assert forall k :: 1 <= k < |urls| ==> urls[k] == urls[1..][k - 1];
        Some(r)
      case (_, _) =>
        assert urls[0] == urls[0];
        None
  }

  /** The parts of the request (app.js:515-534): the base photo, then the
      garments in wearing order, then the prompt. */
  function TryOnRequest(images: seq<string>, prompt: string): seq<RequestPart>
    requires |images| >= 1
  {
    [JpegPart(images[0])] + seq(|images| - 1, k requires 0 <= k < |images| - 1 => JpegPart(images[k + 1])) + [TextPart(prompt)]
  }

  /** The prompt calls image 1 the person and image `k + 2` garment `k`:
      the request puts them in exactly those places. */
  lemma TryOnRequestNumbering(base: string, g: seq<Garment>, encode: string -> Option<string>, prompt: string)
    requires EncodeAll([base] + Urls(g), encode).Some?
    ensures var ps := TryOnRequest(EncodeAll([base] + Urls(g), encode).value, prompt);
      && |ps| == |g| + 2
      && ps[0] == JpegPart(encode(base).value)
      && (forall k :: 0 <= k < |g| ==> ps[k + 1] == JpegPart(encode(g[k].url).value))
      && ps[|g| + 1] == TextPart(prompt)
  {
    var urls := [base] + Urls(g);
    assert forall k :: 0 <= k < |g| ==> urls[k + 1] == g[k].url;
  }

  // ---------------------------------------------------------------------
  // One candidate.

  /** The candidates, in the order they are tried (app.js:537-546). */
  const CompositionModels: seq<string> := [
    "gemini-3-pro-image-preview", "gemini-3-flash-preview", "gemini-3-pro-preview",
    "gemini-2.0-flash-exp-image-generation", "gemini-2.5-flash-image",
    "nano-banana-pro-preview", "gemini-2.5-flash", "gemini-2.5-pro"]

  /** What one candidate's reply leads to before the `catch`: go on to the
      next candidate, return an image, or throw. */
  datatype Step = Next | Done(url: string) | Fail(failure: Failure)

  /** The statuses that move on to the next candidate silently. */
  predicate Retryable(status: int) {
    status == 429 || status == 404 || status == 400
  }

  /** The URL the first part's text names, if that text is truthy. */
  function FirstPartUrl(ps: seq<ResponsePart>): Option<string> {
    if |ps| > 0 && Truthy(ps[0].text) then FirstImageUrl(ps[0].text.value) else None
  }

  /** The body of the `try` for one candidate (app.js:573-606 in order:
      status, image part, URL in the first part's text, no image). */
  function Attempt(reply: Reply): Step {
    match reply
    case Threw(e) => Fail(Raised(e))
    case Responded(status, parts) =>
      if !StatusOk(status) then (if Retryable(status) then Next else Fail(ApiStatus(status)))
      else if parts.None? then Fail(NoImageInResponse)
      else match FirstInlineImage(parts.value)
        case Some(url) => Done(url)
        case None =>
          match FirstPartUrl(parts.value)
          case Some(url) => Done(url)
          case None => Fail(NoImageInResponse)
  }

  /** An image the composition returns is an inline image or an image URL
      found in the first part's text; an image part wins over a URL. */
  lemma AttemptCases(reply: Reply)
    ensures Attempt(reply).Done? ==>
      StartsWith(Attempt(reply).url, "data:image/") || LooksLikeImageUrl(Attempt(reply).url)
    ensures Attempt(reply) == Next <==> reply.Responded? && !StatusOk(reply.status) && Retryable(reply.status)
    ensures reply.Responded? && StatusOk(reply.status) && reply.parts.Some? && FirstInlineImage(reply.parts.value).Some? ==>
      Attempt(reply) == Done(FirstInlineImage(reply.parts.value).value)
    ensures reply.Responded? && StatusOk(reply.status) && reply.parts.Some? && FirstInlineImage(reply.parts.value).None? ==>
      Attempt(reply) ==
        if FirstPartUrl(reply.parts.value).Some? then Done(FirstPartUrl(reply.parts.value).value) else Fail(NoImageInResponse)
    ensures reply.Responded? && StatusOk(reply.status) && reply.parts.None? ==> Attempt(reply) == Fail(NoImageInResponse)
    ensures reply.Responded? && !StatusOk(reply.status) && !Retryable(reply.status) ==> Attempt(reply) == Fail(ApiStatus(reply.status))
    ensures reply.Threw? ==> Attempt(reply) == Fail(Raised(reply.error))
  {
  }

  /** Unlike the detector, only the first part's text is searched: a URL in
      the second part is not found. */
  lemma SecondPartUrlIgnored(status: int, first: ResponsePart, second: ResponsePart)
    requires StatusOk(status) && !Truthy(first.text)
    requires !IsImagePart(first) && !IsImagePart(second)
    ensures Attempt(Responded(status, Some([first, second]))) == Fail(NoImageInResponse)
  {
    var ps := [first, second];
    assert FirstImagePart(ps).None? by {
      assert forall k :: 0 <= k < |ps| ==> !IsImagePart(ps[k]);
    }
  }

  // ---------------------------------------------------------------------
  // The fallback.

  /** The name of the last candidate, which the `catch` compares against. */
  const LastModel := CompositionModels[|CompositionModels| - 1]

  /** What each candidate's reply leads to, in list order. */
  function Steps(replies: seq<Reply>): (r: seq<Step>)
    ensures |r| == |replies| && forall k :: 0 <= k < |replies| ==> r[k] == Attempt(replies[k])
  {
    seq(|replies|, k requires 0 <= k < |replies| => Attempt(replies[k]))
  }

  /** The loop from candidate `i` on: a `Next` continues, a thrown error is
      swallowed unless the candidate is the last one by name, and running
      off the end throws that every model failed. */
  function Fallback(steps: seq<Step>, i: nat): Result<string, Failure>
    requires |steps| == |CompositionModels| && i <= |steps|
    decreases |steps| - i
  {
    if i == |steps| then Failure(AllModelsFailed)
    else match steps[i]
      case Next => Fallback(steps, i + 1)
      case Done(url) => Success(url)
      case Fail(f) => if CompositionModels[i] == LastModel then Failure(f) else Fallback(steps, i + 1)
  }

  /** An image the fallback from `i` returns is the reply of a candidate
      from `i` on. */
  lemma {:induction false} FallbackSuccess(steps: seq<Step>, i: nat)
    requires |steps| == |CompositionModels| && i <= |steps|
    ensures Fallback(steps, i).Success? ==>
      exists k :: i <= k < |steps| && steps[k] == Done(Fallback(steps, i).value)
    decreases |steps| - i
  {
    if i < |steps| {
      FallbackSuccess(steps, i + 1);
    }
  }

  /** When no candidate from `i` on returns an image, the error is the last
      candidate's if it threw and `AllModelsFailed` otherwise: errors of
      earlier candidates never escape. */
  lemma {:induction false} FallbackWithoutImage(steps: seq<Step>, i: nat)
    requires |steps| == |CompositionModels| && i < |steps|
    requires forall k :: i <= k < |steps| ==> !steps[k].Done?
    ensures Fallback(steps, i) == if steps[7].Fail? then Failure(steps[7].failure) else Failure(AllModelsFailed)
    decreases |steps| - i
  {
    assert !steps[i].Done?;
    if i < 7 {
      assert CompositionModels[i] != LastModel;
      FallbackWithoutImage(steps, i + 1);
    }
  }

  /** A failure of the fallback from `i` means no candidate from `i` on
      returned an image. */
  lemma {:induction false} FallbackFailure(steps: seq<Step>, i: nat)
    requires |steps| == |CompositionModels| && i <= |steps|
    ensures Fallback(steps, i).Failure? ==> forall k :: i <= k < |steps| ==> !steps[k].Done?
    decreases |steps| - i
  {
    if i < |steps| && !steps[i].Done? {
      FallbackFailure(steps, i + 1);
    }
  }

  /** Every candidate is consulted in order until the first image, which
      decides. */
  lemma {:induction false} FallbackFindsFirst(steps: seq<Step>, i: nat, k: nat)
    requires |steps| == |CompositionModels| && i <= k < |steps|
    requires forall j :: i <= j < k ==> !steps[j].Done?
    requires steps[k].Done?
    ensures Fallback(steps, i) == Success(steps[k].url)
    decreases k - i
  {
    if i < k {
      assert !steps[i].Done?;
      assert CompositionModels[i] != LastModel;
      FallbackFindsFirst(steps, i + 1, k);
    }
  }

  /** Scenario: every candidate is rate limited, and the error the user
      sees says that every model failed, not why. */
  lemma AllRateLimited(replies: seq<Reply>)
    requires |replies| == |CompositionModels|
    requires forall k :: 0 <= k < |replies| ==> replies[k] == Responded(429, None)
    ensures Fallback(Steps(replies), 0) == Failure(AllModelsFailed)
  {
    FallbackWithoutImage(Steps(replies), 0);
  }

  /** `for (const model of models)` (app.js:548-618), proved to compute the
      fallback. */
  method RunFallback(replies: seq<Reply>) returns (r: Result<string, Failure>)
    requires |replies| == |CompositionModels|
    ensures r == Fallback(Steps(replies), 0)
  {
    ghost var steps := Steps(replies);
    var i := 0;
    while i < |CompositionModels|
      invariant 0 <= i <= |CompositionModels|
      invariant Fallback(steps, 0) == Fallback(steps, i)
    {
      var step := Attempt(replies[i]);
      match step {
        case Next =>
        case Done(url) =>
          return Success(url);
        case Fail(f) =>
          if CompositionModels[i] == CompositionModels[|CompositionModels| - 1] {
            return Failure(f);
          }
      }
      i := i + 1;
    }
    return Failure(AllModelsFailed);
  }

  // ---------------------------------------------------------------------
  // The whole call.

  /** `generateVirtualTryOn` (app.js:438-619) on the merged tables: no key,
      no garment and a failed conversion throw before any candidate is
      contacted. The user's prompt text takes no part. */
  function VirtualTryOn(apiKeySet: bool, base: string, merged: Outfit, encode: string -> Option<string>, replies: seq<Reply>): Result<string, Failure>
    requires |replies| == |CompositionModels|
  {
    if !apiKeySet then Failure(ApiKeyMissing)
    else
      var garments := GarmentsToWear(merged);
      if garments == [] then Failure(NoGarmentsToWear)
      else if EncodeAll([base] + Urls(garments), encode).None? then Failure(ImageConversionFailed)
      else Fallback(Steps(replies), 0)
  }

  /** The order of the early checks, and the shape of a successful result. */
  lemma VirtualTryOnOutcome(apiKeySet: bool, base: string, merged: Outfit, encode: string -> Option<string>, replies: seq<Reply>)
    requires |replies| == |CompositionModels|
    ensures var r := VirtualTryOn(apiKeySet, base, merged, encode, replies);
      && (!apiKeySet ==> r == Failure(ApiKeyMissing))
      && (apiKeySet && (forall s :: InCapacity(s) ==> !Truthy(SlotAt(merged, s))) ==> r == Failure(NoGarmentsToWear))
      && (apiKeySet && GarmentsToWear(merged) != [] && encode(base).None? ==> r == Failure(ImageConversionFailed))
      && (r.Success? ==> StartsWith(r.value, "data:image/") || LooksLikeImageUrl(r.value))
  {
    NothingToWear(merged);
    FallbackSuccess(Steps(replies), 0);
    if VirtualTryOn(apiKeySet, base, merged, encode, replies).Success? {
      var k :| 0 <= k < |replies| && Steps(replies)[k] == Done(Fallback(Steps(replies), 0).value);
      AttemptCases(replies[k]);
    }
    var urls := [base] + Urls(GarmentsToWear(merged));
    assert urls[0] == base;
  }

  /** `generateVirtualTryOn` (app.js:438-619): the early checks, the
      conversion, the request and the candidate loop. `request` is what is
      sent to every candidate, None when none is contacted; `instructions`
      is the prompt text, whose wording is not modelled. */
  method GenerateVirtualTryOn(apiKeySet: bool, base: string, merged: Outfit, encode: string -> Option<string>,
                              instructions: string, replies: seq<Reply>)
    returns (r: Result<string, Failure>, request: Option<seq<RequestPart>>)
    requires |replies| == |CompositionModels|
    ensures r == VirtualTryOn(apiKeySet, base, merged, encode, replies)
    ensures request.Some? <==> apiKeySet && GarmentsToWear(merged) != [] && EncodeAll([base] + Urls(GarmentsToWear(merged)), encode).Some?
    ensures request.Some? ==> request.value == TryOnRequest(EncodeAll([base] + Urls(GarmentsToWear(merged)), encode).value, instructions)
  {
    if !apiKeySet {
      return Failure(ApiKeyMissing), None;
    }
    var garments := GarmentsToWear(merged);
    if |garments| == 0 {
      return Failure(NoGarmentsToWear), None;
    }
    var images := EncodeAll([base] + Urls(garments), encode);
    if images.None? {
      return Failure(ImageConversionFailed), None;
    }
    request := Some(TryOnRequest(images.value, instructions));
    r := RunFallback(replies);
  }
}
