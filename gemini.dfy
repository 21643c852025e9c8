/** What a generation candidate can answer, and the two ways the code reads
    an image out of an answer: the first inline part whose media type starts with `image/`, and the first
    image URL matched in text by
    /(https?:\/\/[^\s]+\.(?:jpg|jpeg|png|gif|webp))/i
    (api/image-generation.js:195-203, app.js:586-603). */
module Gemini {
  import opened Values

  /** `part.inlineData`: a media type (possibly absent) and base64 data. */
  datatype InlineData = InlineData(mimeType: Option<string>, data: string)

  /** One part of a request's `contents[0].parts`: an inline JPEG given by
      its base64 data, or text. */
  datatype RequestPart = JpegPart(data: string) | TextPart(text: string)

  /** One part of `candidates[0].content.parts`. */
  datatype ResponsePart = ResponsePart(text: Option<string>, inlineData: Option<InlineData>)

  /** What one call to one candidate produced: either something was thrown
      (by `fetch`, including the abort of the 30 s timer, or while reading the
      body), or an HTTP response arrived with a status and, when its JSON had
      `candidates[0].content.parts`, those parts. */
  datatype Reply =
    | Threw(error: JsError)
    | Responded(status: int, parts: Option<seq<ResponsePart>>)

  /** `response.ok` */
  predicate StatusOk(status: int) {
    200 <= status <= 299
  }

  /** The name `AbortController.abort()` gives the error: the timeout. */
  const AbortErrorName := "AbortError"

  predicate IsImagePart(p: ResponsePart) {
    p.inlineData.Some? && p.inlineData.value.mimeType.Some?
    && StartsWith(p.inlineData.value.mimeType.value, "image/")
  }

  /** `data:<mime>;base64,<data>` for an image part. */
  function DataUrlOf(p: ResponsePart): (r: string)
    requires IsImagePart(p)
    ensures StartsWith(r, "data:image/")
  {
    var url := "data:" + p.inlineData.value.mimeType.value + ";base64," + p.inlineData.value.data;
    assert url[..11] == "data:" + p.inlineData.value.mimeType.value[..6];
    url
  }

  /** The index of the first image part. */
  function FirstImagePart(ps: seq<ResponsePart>, from: nat := 0): (r: Option<nat>)
    requires from <= |ps|
    ensures r.Some? ==> from <= r.value < |ps| && IsImagePart(ps[r.value])
    ensures r.Some? ==> forall k :: from <= k < r.value ==> !IsImagePart(ps[k])
    ensures r.None? ==> forall k :: from <= k < |ps| ==> !IsImagePart(ps[k])
    decreases |ps| - from
  {
    if from == |ps| then None
    else if IsImagePart(ps[from]) then Some(from)
    else FirstImagePart(ps, from + 1)
  }

  /** The first inline image of an answer, as a `data:` URL. */
  function FirstInlineImage(ps: seq<ResponsePart>): (r: Option<string>)
    ensures r.Some? ==> StartsWith(r.value, "data:image/")
    ensures r.Some? ==>
      exists k :: (0 <= k < |ps| && IsImagePart(ps[k])
        && (forall j :: 0 <= j < k ==> !IsImagePart(ps[j]))
        && r.value == "data:" + ps[k].inlineData.value.mimeType.value + ";base64," + ps[k].inlineData.value.data)
    ensures r.None? <==> forall k :: 0 <= k < |ps| ==> !IsImagePart(ps[k])
  {
    match FirstImagePart(ps)
    case Some(k) => Some(DataUrlOf(ps[k]))
    case None => None
  }

  // ---------------------------------------------------------------------
  // The image URL regular expression.

  /** `\s` of JavaScript regular expressions. */
  predicate IsSpace(c: char) {
    ('\t' <= c <= '\r') || c == ' ' || c == '\U{00A0}' || c == '\U{1680}'
    || ('\U{2000}' <= c <= '\U{200A}') || c == '\U{2028}' || c == '\U{2029}'
    || c == '\U{202F}' || c == '\U{205F}' || c == '\U{3000}' || c == '\U{FEFF}'
  }

  /** Case-insensitive (flag `i`) match of the lower-case word `w` at `i`. */
  predicate MatchesAt(t: string, i: nat, w: string) {
    i + |w| <= |t| && forall k {:trigger w[k]} :: 0 <= k < |w| ==> LowerChar(t[i + k]) == w[k]
  }

  /** A match carries over to a slice of the text that contains it. */
  lemma MatchesAtSlice(t: string, i: nat, w: string, a: nat, b: nat)
    requires a <= i && i + |w| <= b <= |t| && MatchesAt(t, i, w)
    ensures MatchesAt(t[a..b], i - a, w)
  {
    forall k | 0 <= k < |w| ensures LowerChar(t[a..b][i - a + k]) == w[k] {
      assert t[a..b][i - a + k] == t[i + k];
    }
  }

  /** `https?:\/\/`: the scheme matched at `i`, if any. */
  function SchemeAt(t: string, i: nat): (r: Option<string>)
    ensures r.Some? ==> (r.value == "https://" || r.value == "http://") && MatchesAt(t, i, r.value)
  {
    if MatchesAt(t, i, "https://") then Some("https://")
    else if MatchesAt(t, i, "http://") then Some("http://")
    else None
  }

  const ImageExtensions: seq<string> := ["jpg", "jpeg", "png", "gif", "webp"]

  /** A word made of lower-case letters, `:` and `/` only. */
  predicate IsPlainWord(w: string) {
    forall k :: 0 <= k < |w| ==> ('a' <= w[k] <= 'z' || w[k] == ':' || w[k] == '/')
  }

  /** Text that matches such a word case-insensitively has no whitespace. */
  lemma WordHasNoSpace(t: string, i: nat, w: string)
    requires MatchesAt(t, i, w) && IsPlainWord(w)
    ensures forall k :: i <= k < i + |w| ==> !IsSpace(t[k])
  {
    forall k | i <= k < i + |w| ensures !IsSpace(t[k]) {
      assert LowerChar(t[i + (k - i)]) == w[k - i];
    }
  }

  /** `(?:jpg|jpeg|png|gif|webp)` at `i`: the first alternative that matches,
      given by its index in the list. */
  function ExtensionAt(t: string, i: nat, k: nat := 0): (r: Option<nat>)
    requires k <= |ImageExtensions|
    ensures r.Some? ==> k <= r.value < |ImageExtensions| && i + |ImageExtensions[r.value]| <= |t|
    decreases |ImageExtensions| - k
  {
    if k == |ImageExtensions| then None
    else if MatchesAt(t, i, ImageExtensions[k]) then Some(k)
    else ExtensionAt(t, i, k + 1)
  }

  /** The alternative chosen is one that matches, and no earlier one does. */
  lemma {:induction false} ExtensionAtMatches(t: string, i: nat, k: nat)
    requires k <= |ImageExtensions| && ExtensionAt(t, i, k).Some?
    ensures MatchesAt(t, i, ImageExtensions[ExtensionAt(t, i, k).value])
    ensures forall j :: k <= j < ExtensionAt(t, i, k).value ==> !MatchesAt(t, i, ImageExtensions[j])
    decreases |ImageExtensions| - k
  {
    if !MatchesAt(t, i, ImageExtensions[k]) {
      ExtensionAtMatches(t, i, k + 1);
    }
  }

  /** The end of the run of non-space characters from `b`. */
  function RunEnd(t: string, b: nat): (e: nat)
    requires b <= |t|
    ensures b <= e <= |t|
    decreases |t| - b
  {
    if b == |t| || IsSpace(t[b]) then b else RunEnd(t, b + 1)
  }

  /** The run holds no whitespace, and it ends at whitespace or at the end. */
  lemma {:induction false} RunEndIsRun(t: string, b: nat)
    requires b <= |t|
    ensures forall k :: b <= k < RunEnd(t, b) ==> !IsSpace(t[k])
    ensures RunEnd(t, b) < |t| ==> IsSpace(t[RunEnd(t, b)])
    decreases |t| - b
  {
    if !(b == |t| || IsSpace(t[b])) {
      RunEndIsRun(t, b + 1);
    }
  }

  /** `\.(?:jpg|jpeg|png|gif|webp)` at `q`. */
  predicate DotExtensionAt(t: string, q: nat) {
    q < |t| && t[q] == '.' && ExtensionAt(t, q + 1).Some?
  }

  /** `[^\s]+\.ext` after the scheme ending at `b`: greedy `[^\s]+` backs off
      from the end of the run of non-space characters, so the last dot of
      the run that is followed by an extension wins. Dots are tried from
      `p - 1` downwards; the result is the position of the dot. */
  function BodyDot(t: string, b: nat, p: nat): (r: Option<nat>)
    requires b < p <= |t|
    ensures r.Some? ==> b < r.value < p && DotExtensionAt(t, r.value)
    decreases p
  {
    if p <= b + 1 then None
    else if DotExtensionAt(t, p - 1) then Some(p - 1)
    else BodyDot(t, b, p - 1)
  }

  /** The dot chosen is the last one before `p`; with none chosen, there is
      no dot followed by an extension after `b`. */
  lemma {:induction false} BodyDotIsLast(t: string, b: nat, p: nat)
    requires b < p <= |t|
    ensures BodyDot(t, b, p).Some? ==> forall q :: BodyDot(t, b, p).value < q < p ==> !DotExtensionAt(t, q)
    ensures BodyDot(t, b, p).None? ==> forall q :: b < q < p ==> !DotExtensionAt(t, q)
    decreases p
  {
    if p > b + 1 && !DotExtensionAt(t, p - 1) {
      BodyDotIsLast(t, b, p - 1);
    }
  }

  /** A text matched by the expression: a scheme, no whitespace, and at the
      end a dot and one of the image extensions. */
  predicate LooksLikeImageUrl(u: string) {
    (MatchesAt(u, 0, "http://") || MatchesAt(u, 0, "https://"))
    && (forall k :: 0 <= k < |u| ==> !IsSpace(u[k]))
    && exists j :: 0 <= j < |ImageExtensions| && HasExtension(u, ImageExtensions[j])
  }

  /** `u` ends with `.` and `x`, case-insensitively. */
  predicate HasExtension(u: string, x: string) {
    |x| + 1 <= |u| && u[|u| - |x| - 1] == '.' && MatchesAt(u, |u| - |x|, x)
  }

  /** A slice that ends with a dot and a match of `x` has the extension `x`. */
  lemma SliceHasExtension(t: string, i: nat, q: nat, x: string)
    requires i <= q && q + 1 + |x| <= |t| && t[q] == '.' && MatchesAt(t, q + 1, x)
    ensures HasExtension(t[i..q + 1 + |x|], x)
  {
    var m := q + 1 + |x|;
    assert t[i..m][q - i] == t[q];
    MatchesAtSlice(t, q + 1, x, i, m);
  }

  /** A slice of a text without whitespace has no whitespace. */
  lemma SliceHasNoSpace(t: string, i: nat, m: nat)
    requires i <= m <= |t| && forall k :: i <= k < m ==> !IsSpace(t[k])
    ensures forall k :: 0 <= k < m - i ==> !IsSpace(t[i..m][k])
  {
    forall k | 0 <= k < m - i ensures !IsSpace(t[i..m][k]) {
      assert t[i..m][k] == t[i + k];
    }
  }

  /** The extensions and schemes are plain words. */
  lemma PlainWords()
    ensures forall j :: 0 <= j < |ImageExtensions| ==> IsPlainWord(ImageExtensions[j])
    ensures IsPlainWord("http://") && IsPlainWord("https://")
  {
  }

  /** A scheme at `i`, no whitespace up to a dot at `q`, and an extension
      after it make the slice from `i` an image URL. */
  lemma UrlShape(t: string, i: nat, w: string, q: nat, j: nat, m: nat)
    requires w == "http://" || w == "https://"
    requires i + |w| <= q && MatchesAt(t, i, w)
    requires j < |ImageExtensions| && MatchesAt(t, q + 1, ImageExtensions[j]) && t[q] == '.'
    requires forall k :: i + |w| <= k < q ==> !IsSpace(t[k])
    requires m == q + 1 + |ImageExtensions[j]|
    ensures LooksLikeImageUrl(t[i..m])
  {
    var x := ImageExtensions[j];
    PlainWords();
    WordHasNoSpace(t, i, w);
    WordHasNoSpace(t, q + 1, x);
    MatchesAtSlice(t, i, w, i, m);
    SliceHasNoSpace(t, i, m);
    SliceHasExtension(t, i, q, x);
  }

  /** The end of the match whose scheme `w` starts at `i` and whose last
      dot is at `q`. */
  function MatchEnd(t: string, i: nat, w: string, q: nat): (m: nat)
    requires w == "https://" || w == "http://"
    requires MatchesAt(t, i, w) && i + |w| <= q && DotExtensionAt(t, q)
    requires forall k :: i + |w| <= k < q ==> !IsSpace(t[k])
    ensures i < m <= |t| && LooksLikeImageUrl(t[i..m])
    ensures m == q + 1 + |ImageExtensions[ExtensionAt(t, q + 1).value]|
  {
    var j := ExtensionAt(t, q + 1).value;
    ExtensionAtMatches(t, q + 1, 0);
    var m := q + 1 + |ImageExtensions[j]|;
    UrlShape(t, i, w, q, j, m);
    m
  }

  /** The end of the match starting at `i`, if the expression matches
      there; what it matches is an image URL. The match is greedy: it ends
      after the extension of the last dot of the run of non-space
      characters that follows the scheme and is followed by an extension. */
  function MatchAt(t: string, i: nat): (r: Option<nat>)
    requires i <= |t|
    ensures r.Some? ==> i < r.value <= |t| && LooksLikeImageUrl(t[i..r.value])
    ensures r.Some? ==>
      SchemeAt(t, i).Some? &&
      var b := i + |SchemeAt(t, i).value|;
      exists q :: (b < q < RunEnd(t, b) && DotExtensionAt(t, q)
        && r.value == q + 1 + |ImageExtensions[ExtensionAt(t, q + 1).value]|
        && forall q' :: q < q' < RunEnd(t, b) ==> !DotExtensionAt(t, q'))
  {
    match SchemeAt(t, i)
    case None => None
    case Some(w) =>
      var b := i + |w|;
      var e := RunEnd(t, b);
      if e == b then None
      else match BodyDot(t, b, e)
        case None => None
        case Some(q) =>
          RunEndIsRun(t, b);
          BodyDotIsLast(t, b, e);
          Some(MatchEnd(t, i, w, q))
  }

  /** Every scheme followed, without whitespace, by a dot and an extension
      is matched: the expression succeeds at the scheme, and so the text
      has a first image URL. */
  lemma MatchAtComplete(t: string, i: nat, w: string, q: nat)
    requires i <= |t| && SchemeAt(t, i) == Some(w) && i + |w| < q && DotExtensionAt(t, q)
    requires forall k :: i + |w| <= k <= q ==> !IsSpace(t[k])
    ensures MatchAt(t, i).Some? && FirstImageUrl(t).Some?
  {
    var b := i + |w|;
    RunEndIsRun(t, b);
    var e := RunEnd(t, b);
    assert q < e;
    BodyDotIsLast(t, b, e);
    assert MatchAt(t, i).Some?;
    assert Matcher(t)(i).Some?;
  }

  /** A dot followed by an extension further along the same run of
      non-space characters moves the end of the match past it. */
  lemma MatchAtIsGreedy(t: string, i: nat, w: string, q: nat)
    requires i <= |t| && SchemeAt(t, i) == Some(w) && MatchAt(t, i).Some?
    requires i + |w| < q < RunEnd(t, i + |w|) && DotExtensionAt(t, q)
    ensures q < MatchAt(t, i).value
  {
  }

  /** The scan of `String.prototype.match`: the leftmost position in
      `from..n` at which the matcher `m` succeeds, with the end it reports. */
  function Leftmost(m: nat -> Option<nat>, from: nat, n: nat): (r: Option<(nat, nat)>)
    requires from <= n
    ensures r.Some? ==> from <= r.value.0 <= n && m(r.value.0) == Some(r.value.1)
    decreases n - from
  {
    match m(from)
    case Some(e) => Some((from, e))
    case None => if from == n then None else Leftmost(m, from + 1, n)
  }

  /** No position before the one found matches; with nothing found, no
      position matches at all. */
  lemma {:induction false} LeftmostIsLeftmost(m: nat -> Option<nat>, from: nat, n: nat)
    requires from <= n
    ensures Leftmost(m, from, n).Some? ==> forall j :: from <= j < Leftmost(m, from, n).value.0 ==> m(j).None?
    ensures Leftmost(m, from, n).None? ==> forall j :: from <= j <= n ==> m(j).None?
    decreases n - from
  {
    if m(from).None? && from < n {
      LeftmostIsLeftmost(m, from + 1, n);
    }
  }

  /** The first position where the matcher succeeds is the one found. */
  lemma {:induction false} LeftmostFinds(m: nat -> Option<nat>, from: nat, n: nat, j: nat)
    requires from <= j <= n && m(j).Some?
    requires forall k :: from <= k < j ==> m(k).None?
    ensures Leftmost(m, from, n) == Some((j, m(j).value))
    decreases j - from
  {
    if from < j {
      LeftmostFinds(m, from + 1, n, j);
    }
  }

  /** The expression tried at every position of `t`. */
  function Matcher(t: string): nat -> Option<nat> {
    (j: nat) => if j <= |t| then MatchAt(t, j) else None
  }

  /** `text.match(regex)[1]`: the first image URL of a text. */
  function FirstImageUrl(t: string): (r: Option<string>)
    ensures r.Some? ==> LooksLikeImageUrl(r.value) && Contains(t, r.value)
    ensures r.None? ==> forall j :: 0 <= j <= |t| ==> MatchAt(t, j).None?
  {
    match Leftmost(Matcher(t), 0, |t|)
    case Some(se) =>
      assert MatchAt(t, se.0) == Some(se.1);
      ContainsAt(t, t[se.0..se.1], se.0);
      Some(t[se.0..se.1])
    case None =>
      LeftmostIsLeftmost(Matcher(t), 0, |t|);
      assert forall j :: 0 <= j <= |t| ==> Matcher(t)(j) == MatchAt(t, j);
      None
  }

  /** The leftmost match is chosen: an earlier URL with an image extension
      always wins over a later one. */
  lemma FirstImageUrlIsLeftmost(t: string, j: nat)
    requires j <= |t| && MatchAt(t, j).Some?
    requires forall k :: 0 <= k < j ==> MatchAt(t, k).None?
    ensures FirstImageUrl(t) == Some(t[j..MatchAt(t, j).value])
  {
    var m := Matcher(t);
    forall k | 0 <= k < j ensures m(k).None? {
      assert m(k) == MatchAt(t, k);
    }
    LeftmostFinds(m, 0, |t|, j);
  }
}
