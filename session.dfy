/** The session state machine of app.js: the global `appState` as an object
    whose operations move it between the statuses of `STATUS`, each proved
    against a function that states its whole effect on the session data. */
module Session {
  import opened Values
  import opened Layers
  import opened Gemini
  import opened Detection
  import opened Composition
  import opened AppState
  import opened Persistence

  // ---------------------------------------------------------------------
  // The detection pipeline.

  /** The place of a position in the detection order, if it is visited. */
  function DetectionIndex(s: Slot): (k: Option<nat>)
    ensures k.Some? ==> k.value < 6 && DetectionOrder[k.value] == s
    ensures k.None? ==> s !in DetectionOrder
  {
    match s
    case Slot(Outer, 0) => Some(0)
    case Slot(Outer, 1) => Some(1)
    case Slot(Inner, 0) => Some(2)
    case Slot(Inner, 1) => Some(3)
    case Slot(Inner, 2) => Some(4)
    case Slot(Bottoms, 0) => Some(5)
    case _ => None
  }

  /** What the environment does for each of the six detections, in order. */
  predicate ValidScripts(scripts: seq<ThumbnailScript>) {
    |scripts| == |DetectionOrder| && forall k :: 0 <= k < |scripts| ==> ValidScript(scripts[k])
  }

  /** The thumbnail `generateGarmentThumbnail` gives for each position. */
  function Thumbnails(image: string, apiKeySet: bool, scripts: seq<ThumbnailScript>): (r: seq<Field>)
    requires ValidScripts(scripts)
    ensures |r| == |DetectionOrder|
  {
    seq(|DetectionOrder|, k requires 0 <= k < |DetectionOrder| => GarmentThumbnail(Some(image), apiKeySet, scripts[k]))
  }

  /** The baseline after the first `n` detections (app.js:194-228): each
      truthy result is written to its position. */
  function Fill(o: Outfit, results: seq<Field>, n: nat): Outfit
    requires n <= |DetectionOrder| && |results| == |DetectionOrder|
  {
    if n == 0 then o
    else
      var s := DetectionOrder[n - 1];
      var prev := Fill(o, results, n - 1);
      if Truthy(results[n - 1]) then Write(prev, s.category, s.index, results[n - 1]) else prev
  }

  /** After the first `n` detections, a visited position holds its truthy
      result and every other position its old value. */
  lemma {:induction false} FillSlots(o: Outfit, results: seq<Field>, n: nat, t: Slot)
    requires WellShaped(o) && InCapacity(t)
    requires n <= |DetectionOrder| && |results| == |DetectionOrder|
    ensures WellShaped(Fill(o, results, n))
    ensures SlotAt(Fill(o, results, n), t) ==
      var k := DetectionIndex(t);
      if k.Some? && k.value < n && Truthy(results[k.value]) then results[k.value] else SlotAt(o, t)
  {
    if n > 0 {
      var s := DetectionOrder[n - 1];
      FillSlots(o, results, n - 1, t);
      if Truthy(results[n - 1]) {
        WriteInCapacity(Fill(o, results, n - 1), s, results[n - 1]);
        assert DetectionIndex(s) == Some(n - 1);
      }
    }
  }

  /** The pipeline fills the baseline from the detections: it writes only
      truthy results, only to the six visited positions, and never to the
      second bottoms slot. */
  lemma PipelineFillsBaseline(o: Outfit, results: seq<Field>)
    requires WellShaped(o) && |results| == |DetectionOrder|
    ensures WellShaped(Fill(o, results, 6))
    ensures forall k :: 0 <= k < 6 ==>
      SlotAt(Fill(o, results, 6), DetectionOrder[k]) == if Truthy(results[k]) then results[k] else SlotAt(o, DetectionOrder[k])
    ensures SlotAt(Fill(o, results, 6), Slot(Bottoms, 1)) == SlotAt(o, Slot(Bottoms, 1))
  {
    FillSlots(o, results, 6, Slot(Bottoms, 1));
    forall k | 0 <= k < 6
      ensures SlotAt(Fill(o, results, 6), DetectionOrder[k]) == if Truthy(results[k]) then results[k] else SlotAt(o, DetectionOrder[k])
    {
      FillSlots(o, results, 6, DetectionOrder[k]);
      assert DetectionIndex(DetectionOrder[k]) == Some(k);
    }
  }

  // ---------------------------------------------------------------------
  // The effect of each operation on the session data.

  /** What the environment answers during one try-on. */
  datatype TryOnScript = TryOnScript(apiKeySet: bool, encode: string -> Option<string>, instructions: string, replies: seq<Reply>)

  predicate ValidTryOn(s: TryOnScript) {
    |s.replies| == |CompositionModels|
  }

  /** `requestTryOn` (app.js:373-423): without a base image, or when the
      composition throws, the session goes to ERROR with the cause;
      otherwise the composite is stored and the session is DONE. */
  function TryOnOutcome(d: SessionData, s: TryOnScript): SessionData
    requires ValidTryOn(s)
  {
    if !Truthy(d.base) then d.(status := Error, errorMessage := Some(TryOnFailed(NoBaseImage)))
    else match VirtualTryOn(s.apiKeySet, d.base.value, Merge(d.slots, d.initial), s.encode, s.replies)
      case Success(url) => d.(composed := Some(url), status := Status.Done, errorMessage := None)
      case Failure(f) => d.(status := Error, errorMessage := Some(TryOnFailed(f)))
  }

  /** The reset `handlePhotoUpload` makes before the pipeline
      (app.js:97-114): the photo becomes the base, every other image, both
      tables, the detection result and the message are cleared, and the
      session is ANALYZING. */
  function UploadReset(d: SessionData, url: string): SessionData {
    d.(base := Some(url), composed := None, initial := EmptyOutfit, slots := EmptyOutfit,
       detected := false, errorMessage := None, status := Analyzing)
  }

  /** `runInlinePipeline` (app.js:147-260): the detected thumbnails fill the
      baseline and the session is READY. */
  function Pipeline(d: SessionData, image: string, apiKeySet: bool, scripts: seq<ThumbnailScript>): SessionData
    requires ValidScripts(scripts)
  {
    d.(detected := true, initial := Fill(d.initial, Thumbnails(image, apiKeySet, scripts), 6),
       status := Ready, errorMessage := None)
  }

  /** `handlePhotoUpload` (app.js:90-121): the reset, then the pipeline. */
  function AfterUpload(d: SessionData, photo: Option<string>, apiKeySet: bool, scripts: seq<ThumbnailScript>): SessionData
    requires ValidScripts(scripts)
  {
    match photo
    case None => d.(status := Error, errorMessage := Some(UploadFailed))
    case Some(url) => Pipeline(UploadReset(d, url), url, apiKeySet, scripts)
  }

  /** `replaceSlot` (app.js:266-313). */
  function AfterReplace(d: SessionData, category: string, index: int, url: Field, s: TryOnScript): SessionData
    requires ValidTryOn(s)
  {
    match ParseCategory(category)
    case None => d.(status := Error, errorMessage := Some(ReplaceFailed(BadCategory(category))))
    case Some(c) =>
      if index < 0 || index >= Capacity(c) then d.(status := Error, errorMessage := Some(ReplaceFailed(BadIndex(category, index))))
      else
        var written := d.(slots := Write(d.slots, c, index, url));
        if d.status == Ready || d.status == Status.Done then TryOnOutcome(written.(status := Generating, errorMessage := None), s)
        else written
  }

  /** `removeGarment` (app.js:318-368), before its save: an unknown category
      has no table to write to (a `TypeError`). */
  function AfterRemove(d: SessionData, category: string, index: int, s: TryOnScript): SessionData
    requires ValidTryOn(s)
  {
    match ParseCategory(category)
    case None => d.(status := Error, errorMessage := Some(RemoveFailed(NotACategory(category))))
    case Some(c) =>
      var cleared := d.(slots := Write(d.slots, c, index, None));
      if AllEmpty(cleared.slots) then cleared.(composed := None, status := Ready)
      else TryOnOutcome(cleared.(status := Generating, errorMessage := None), s)
  }

  /** `restoreAppState` (app.js:646-710) given what `loadState` returned. */
  function AfterRestore(d: SessionData, loaded: Option<Stored>, enc: Encoders): SessionData {
    match loaded
    case None => d
    case Some(st) => Reloaded(st, enc)
  }

  // ---------------------------------------------------------------------
  // Properties of the operations.

  /** A try-on changes only the composite, the status and the message; a
      success is DONE with an image, every failure is ERROR with its cause,
      and no base image is the first failure checked. */
  lemma TryOnCases(d: SessionData, s: TryOnScript)
    requires ValidTryOn(s)
    ensures var r := TryOnOutcome(d, s);
      && r.(composed := d.composed, status := d.status, errorMessage := d.errorMessage) == d
      && (r.status == Status.Done ==>
            Truthy(r.composed) && r.errorMessage.None?
            && (StartsWith(r.composed.value, "data:image/") || LooksLikeImageUrl(r.composed.value)))
      && (r.status != Status.Done ==> r.status == Error && r.errorMessage.Some? && r.errorMessage.value.TryOnFailed? && r.composed == d.composed)
      && (!Truthy(d.base) ==> r.errorMessage == Some(TryOnFailed(NoBaseImage)))
  {
    if Truthy(d.base) {
      VirtualTryOnOutcome(s.apiKeySet, d.base.value, Merge(d.slots, d.initial), s.encode, s.replies);
      var r := VirtualTryOn(s.apiKeySet, d.base.value, Merge(d.slots, d.initial), s.encode, s.replies);
    }
  }

  /** An upload clears the composite, both tables, the detection result and
      the message, keeps the prompt, and ends READY with the detected
      baseline; a photo that cannot be opened changes only status and
      message. */
  lemma UploadResets(d: SessionData, photo: Option<string>, apiKeySet: bool, scripts: seq<ThumbnailScript>)
    requires ValidScripts(scripts)
    ensures var r := AfterUpload(d, photo, apiKeySet, scripts);
      && r.prompt == d.prompt
      && (photo.Some? ==> UploadReset(d, photo.value).status == Analyzing
                          && UploadReset(d, photo.value).prompt == d.prompt
                          && AllEmpty(UploadReset(d, photo.value).slots) && AllEmpty(UploadReset(d, photo.value).initial))
      && (photo.None? ==> r == d.(status := Error, errorMessage := Some(UploadFailed)))
      && (photo.Some? ==>
            r.base == photo && r.composed.None? && r.slots == EmptyOutfit && r.status == Ready && r.errorMessage.None?
            && WellShaped(r.initial)
            && (forall k :: 0 <= k < 6 ==>
                  SlotAt(r.initial, DetectionOrder[k]) == if Truthy(Thumbnails(photo.value, apiKeySet, scripts)[k]) then Thumbnails(photo.value, apiKeySet, scripts)[k] else None)
            && SlotAt(r.initial, Slot(Bottoms, 1)).None?)
  {
    if photo.Some? {
      var results := Thumbnails(photo.value, apiKeySet, scripts);
      PipelineFillsBaseline(EmptyOutfit, results);
      forall k | 0 <= k < 6 ensures SlotAt(EmptyOutfit, DetectionOrder[k]).None? {
        assert InCapacity(DetectionOrder[k]);
      }
    }
  }

  /** A rejected slot changes no slot and reports why; an accepted one
      writes exactly that slot, keeps the tables' shape, and recomposes only
      from READY or DONE. */
  lemma ReplaceSlotCases(d: SessionData, category: string, index: int, url: Field, s: TryOnScript)
    requires ValidTryOn(s)
    ensures var r := AfterReplace(d, category, index, url, s);
      && r.initial == d.initial && r.base == d.base
      && (ParseCategory(category).None? ==> r == d.(status := Error, errorMessage := Some(ReplaceFailed(BadCategory(category)))))
      && (ParseCategory(category).Some? && !(0 <= index < Capacity(ParseCategory(category).value)) ==>
            r == d.(status := Error, errorMessage := Some(ReplaceFailed(BadIndex(category, index)))))
      && (ParseCategory(category).Some? && 0 <= index < Capacity(ParseCategory(category).value) ==>
            var slot := Slot(ParseCategory(category).value, index);
            && (WellShaped(d.slots) ==> WellShaped(r.slots))
            && SlotAt(r.slots, slot) == url
            && (forall t :: t != slot ==> SlotAt(r.slots, t) == SlotAt(d.slots, t))
            && (d.status != Ready && d.status != Status.Done ==> r == d.(slots := r.slots))
            && (d.status == Ready || d.status == Status.Done ==> r.status == Status.Done || r.status == Error))
  {
    match ParseCategory(category)
    case None =>
    case Some(c) =>
      if 0 <= index < Capacity(c) {
        var slot := Slot(c, index);
        WriteSlots(d.slots, slot, url);
        if WellShaped(d.slots) {
          WriteInCapacity(d.slots, slot, url);
        }
        var written := d.(slots := Write(d.slots, c, index, url));
        TryOnCases(written.(status := Generating, errorMessage := None), s);
      }
  }

  /** Removing the last garment shows the base photo again without a
      recompose, and leaves the message as it was; otherwise the session
      recomposes. Either way the slot is emptied, no other slot changes, and
      the baseline is kept. */
  lemma RemoveGarmentCases(d: SessionData, category: string, index: int, s: TryOnScript)
    requires ValidTryOn(s)
    ensures var r := AfterRemove(d, category, index, s);
      && r.initial == d.initial && r.base == d.base
      && (ParseCategory(category).None? ==> r == d.(status := Error, errorMessage := Some(RemoveFailed(NotACategory(category)))))
      && (ParseCategory(category).Some? ==> r.slots == Write(d.slots, ParseCategory(category).value, index, None))
      && (ParseCategory(category).Some? && index >= 0 ==>
            var slot := Slot(ParseCategory(category).value, index);
            && !Truthy(SlotAt(r.slots, slot))
            && (forall t :: t != slot ==> SlotAt(r.slots, t) == SlotAt(d.slots, t)))
      && (ParseCategory(category).Some? && AllEmpty(Write(d.slots, ParseCategory(category).value, index, None)) ==>
            r == d.(slots := r.slots, composed := None, status := Ready))
      && (ParseCategory(category).Some? && !AllEmpty(Write(d.slots, ParseCategory(category).value, index, None)) ==>
            r.status == Status.Done || r.status == Error)
  {
    match ParseCategory(category)
    case None =>
    case Some(c) =>
      if index >= 0 {
        WriteSlots(d.slots, Slot(c, index), None);
      }
      var cleared := d.(slots := Write(d.slots, c, index, None));
      TryOnCases(cleared.(status := Generating, errorMessage := None), s);
  }

  /** Scenario: after a failed try-on, removing the only garment shows READY
      while the failure message is still set. */
  lemma StaleMessageAfterRemove(d: SessionData, s: TryOnScript, f: Failure)
    requires ValidTryOn(s) && d.slots == Write(EmptyOutfit, Outer, 0, Some("blob:coat"))
    requires d.status == Error && d.errorMessage == Some(TryOnFailed(f))
    ensures AfterRemove(d, "outer", 0, s).status == Ready
    ensures AfterRemove(d, "outer", 0, s).errorMessage == Some(TryOnFailed(f))
  {
    var cleared := Write(d.slots, Outer, 0, None);
    assert cleared == EmptyOutfit;
    assert AllEmpty(EmptyOutfit);
  }

  /** The session is consistent when DONE comes with a composite. */
  predicate DoneHasComposite(d: SessionData) {
    d.status == Status.Done ==> Truthy(d.composed)
  }

  /** The initial session has that consistency. */
  lemma InitialHasDoneComposite()
    ensures DoneHasComposite(InitialData)
  {
  }

  /** A try-on keeps that consistency. */
  lemma TryOnKeepsDoneHasComposite(d: SessionData, s: TryOnScript)
    requires ValidTryOn(s) && DoneHasComposite(d)
    ensures DoneHasComposite(TryOnOutcome(d, s))
  {
    TryOnCases(d, s);
  }

  /** An upload keeps that consistency. */
  lemma UploadKeepsDoneHasComposite(d: SessionData, photo: Option<string>, apiKeySet: bool, scripts: seq<ThumbnailScript>)
    requires ValidScripts(scripts) && DoneHasComposite(d)
    ensures DoneHasComposite(AfterUpload(d, photo, apiKeySet, scripts))
  {
  }

  /** A restore keeps that consistency. */
  lemma RestoreKeepsDoneHasComposite(d: SessionData, loaded: Option<Stored>, enc: Encoders)
    requires DoneHasComposite(d)
    ensures DoneHasComposite(AfterRestore(d, loaded, enc))
  {
  }

  /** Replacing a slot keeps that consistency. */
  lemma ReplaceKeepsDoneHasComposite(d: SessionData, category: string, index: int, url: Field, s: TryOnScript)
    requires ValidTryOn(s) && DoneHasComposite(d)
    ensures DoneHasComposite(AfterReplace(d, category, index, url, s))
  {
    if ParseCategory(category).Some? {
      var c := ParseCategory(category).value;
      TryOnCases(d.(slots := Write(d.slots, c, index, url)).(status := Generating, errorMessage := None), s);
    }
  }

  /** Removing a garment keeps that consistency. */
  lemma RemoveKeepsDoneHasComposite(d: SessionData, category: string, index: int, s: TryOnScript)
    requires ValidTryOn(s) && DoneHasComposite(d)
    ensures DoneHasComposite(AfterRemove(d, category, index, s))
  {
    if ParseCategory(category).Some? {
      var c := ParseCategory(category).value;
      TryOnCases(d.(slots := Write(d.slots, c, index, None)).(status := Generating, errorMessage := None), s);
    }
  }

  /** After a restore no image of the session is a handle and the status is
      DONE, READY or EMPTY by what remains; with nothing loaded nothing
      changes. */
  lemma RestoreCases(d: SessionData, loaded: Option<Stored>, enc: Encoders, t: Slot)
    ensures var r := AfterRestore(d, loaded, enc);
      && (loaded.None? ==> r == d)
      && (loaded.Some? ==>
            && (Truthy(r.base) ==> !StartsWith(r.base.value, "blob:"))
            && (Truthy(r.composed) ==> !StartsWith(r.composed.value, "blob:"))
            && (Truthy(SlotAt(r.slots, t)) ==> !StartsWith(SlotAt(r.slots, t).value, "blob:"))
            && r.status == StatusAfterRestore(r)
            && r.initial == loaded.value.data.initial)
  {
    if loaded.Some? {
      ReloadedHasNoHandles(loaded.value, enc, t);
    }
  }

  /** A composite the model returns inline is a data URL that the storage
      codec takes apart again: its payload is the part's data, provided the
      media subtype has no `;` and the data is one non-empty line. */
  lemma InlineImageIsStorable(p: ResponsePart)
    requires IsImagePart(p)
    requires var mime := p.inlineData.value.mimeType.value;
      |mime| > 6 && forall k :: 6 <= k < |mime| ==> mime[k] != ';'
    requires p.inlineData.value.data != [] && NoLineTerminator(p.inlineData.value.data)
    ensures DataImagePayload(DataUrlOf(p)) == Some(p.inlineData.value.data)
  {
    var mime := p.inlineData.value.mimeType.value;
    var subtype := mime[6..];
    assert mime == "image/" + subtype;
    assert DataUrlOf(p) == DataImagePrefix + subtype + Base64Marker + p.inlineData.value.data;
    DataImagePayloadRoundTrip(subtype, p.inlineData.value.data);
  }

  // ---------------------------------------------------------------------
  // The session object.

  /** Environment of a save: the clock and random suffix of a new session
      id, the codec's primitives, the serializer, and whether each tier
      accepts the write. */
  datatype SaveScript = SaveScript(now: nat, suffix: string, enc: Encoders, serialize: Stored -> string, localWrites: bool, remoteWrites: bool)

  /** The tiers after `removeGarment`'s save of `d`. */
  function SavedTiers(store: Tiers, storedId: Option<string>, d: SessionData, w: SaveScript): Tiers {
    var id := SessionIdFor(storedId, w.now, w.suffix);
    var st := ConvertState(d, w.enc);
    Save(store, id, st, Utf8Size(w.serialize(st)), w.localWrites, w.remoteWrites)
  }

  /** The inner loop of `restoreAppState`'s slot scrub (app.js:676-681):
      every handle in one table is set to `null`. */
  method DropCategoryHandles(xs: seq<Field>) returns (ys: seq<Field>)
    ensures ys == DropHandles(xs)
    ensures forall i :: 0 <= i < |ys| ==> Truthy(ys[i]) ==> !StartsWith(ys[i].value, "blob:")
  {
    ys := xs;
    var i := 0;
    while i < |ys|
      invariant 0 <= i <= |ys| == |xs|
      invariant ys[..i] == DropHandles(xs)[..i] && ys[i..] == xs[i..]
    {
      if Truthy(ys[i]) && StartsWith(ys[i].value, "blob:") {
        ys := ys[i := None];
      }
      i := i + 1;
    }
    assert ys == ys[..i];
  }

  /** `appState` (app.js:16-38). */
  class Session {
    var status: Status
    var base: Field
    var initial: Outfit
    var slots: Outfit
    var composed: Field
    var detected: bool
    var prompt: string
    var errorMessage: Option<ErrorMessage>

    function Data(): SessionData
      reads this
    {
      SessionData(status, base, initial, slots, composed, detected, prompt, errorMessage)
    }

    /** Assigns every field from `d`. */
    method Assign(d: SessionData)
      modifies this
      ensures Data() == d
    {
      status, base, initial, slots := d.status, d.base, d.initial, d.slots;
      composed, detected, prompt, errorMessage := d.composed, d.detected, d.prompt, d.errorMessage;
    }

    constructor()
      ensures Data() == InitialData
    {
      status, base, initial, slots := Empty, None, EmptyOutfit, EmptyOutfit;
      composed, detected, prompt, errorMessage := None, false, "", None;
    }

    /** `transitionTo` (app.js:43-48): the status and the message, nothing
        else. */
    method TransitionTo(s: Status, message: Option<ErrorMessage>)
      modifies this
      ensures Data() == old(Data()).(status := s, errorMessage := message)
    {
      status := s;
      errorMessage := message;
    }

    /** `resetAllState` (app.js:53-87). */
    method ResetAllState()
      modifies this
      ensures Data() == InitialData
    {
      Assign(InitialData);
    }

    /** `runInlinePipeline` (app.js:146-260): the six detections in order,
        each truthy thumbnail written to the baseline only. */
    method RunInlinePipeline(image: string, apiKeySet: bool, scripts: seq<ThumbnailScript>)
      requires ValidScripts(scripts)
      modifies this
      ensures Data() == Pipeline(old(Data()), image, apiKeySet, scripts)
    {
      detected := true;
      ghost var results := Thumbnails(image, apiKeySet, scripts);
      for k := 0 to |DetectionOrder|
        invariant initial == Fill(old(initial), results, k)
        invariant Data() == old(Data()).(detected := true, initial := initial)
      {
        var s := DetectionOrder[k];
        var thumbnail := GarmentThumbnail(Some(image), apiKeySet, scripts[k]);
        if Truthy(thumbnail) {
          initial := Write(initial, s.category, s.index, thumbnail);
        }
      }
      TransitionTo(Ready, None);
    }

    /** `handlePhotoUpload` (app.js:92-121). `photo` is the handle
        `createObjectURL` gives the file, None when it throws. */
    method HandlePhotoUpload(photo: Option<string>, apiKeySet: bool, scripts: seq<ThumbnailScript>)
      requires ValidScripts(scripts)
      modifies this
      ensures Data() == AfterUpload(old(Data()), photo, apiKeySet, scripts)
    {
      if photo.None? {
        TransitionTo(Error, Some(UploadFailed));
        return;
      }
      var url := photo.value;
      base := Some(url);
      composed := None;
      initial := EmptyOutfit;
      slots := EmptyOutfit;
      detected := false;
      errorMessage := None;
      TransitionTo(Analyzing, None);
      assert Data() == UploadReset(old(Data()), url);
      RunInlinePipeline(url, apiKeySet, scripts);
    }

    /** `requestTryOn` (app.js:373-423). */
    method RequestTryOn(s: TryOnScript)
      requires ValidTryOn(s)
      modifies this
      ensures Data() == TryOnOutcome(old(Data()), s)
    {
      if !Truthy(base) {
        TransitionTo(Error, Some(TryOnFailed(NoBaseImage)));
        return;
      }
      var merged := Merge(slots, initial);
      var r, _ := GenerateVirtualTryOn(s.apiKeySet, base.value, merged, s.encode, s.instructions, s.replies);
      match r {
        case Success(url) =>
          composed := Some(url);
          TransitionTo(Status.Done, None);
        case Failure(f) =>
          TransitionTo(Error, Some(TryOnFailed(f)));
      }
    }

    /** `replaceSlot` (app.js:266-313). */
    method ReplaceSlot(category: string, index: int, url: Field, s: TryOnScript)
      requires ValidTryOn(s)
      modifies this
      ensures Data() == AfterReplace(old(Data()), category, index, url, s)
    {
      var c := ParseCategory(category);
      if c.None? {
        TransitionTo(Error, Some(ReplaceFailed(BadCategory(category))));
        return;
      }
      if index < 0 || index >= Capacity(c.value) {
        TransitionTo(Error, Some(ReplaceFailed(BadIndex(category, index))));
        return;
      }
      slots := Write(slots, c.value, index, url);
      if status == Ready || status == Status.Done {
        TransitionTo(Generating, None);
        RequestTryOn(s);
      }
    }

    /** `removeGarment` (app.js:318-368), including the save it makes
        directly; the save never throws. */
    method RemoveGarment(category: string, index: int, s: TryOnScript, store: Store, w: SaveScript)
      requires ValidTryOn(s)
      modifies this, store
      ensures Data() == AfterRemove(old(Data()), category, index, s)
      ensures ParseCategory(category).None? ==> store.tiers == old(store.tiers) && store.sessionId == old(store.sessionId)
      ensures ParseCategory(category).Some? ==>
        store.tiers == SavedTiers(old(store.tiers), old(store.sessionId), Data(), w)
        && store.sessionId == Some(SessionIdFor(old(store.sessionId), w.now, w.suffix))
    {
      var c := ParseCategory(category);
      if c.None? {
        TransitionTo(Error, Some(RemoveFailed(NotACategory(category))));
        return;
      }
      slots := Write(slots, c.value, index, None);
      if AllEmpty(slots) {
        composed := None;
        status := Ready;
      } else {
        TransitionTo(Generating, None);
        RequestTryOn(s);
      }
      var id := store.GetSessionId(w.now, w.suffix);
      store.SaveState(id, Data(), w.enc, w.serialize, w.localWrites, w.remoteWrites);
    }

    /** The slot loops of `restoreAppState` (app.js:674-683), one category
        at a time. */
    method DropSlotHandles()
      modifies this
      ensures Data() == old(Data()).(slots := Outfit(DropHandles(old(slots).outer), DropHandles(old(slots).inner), DropHandles(old(slots).bottoms)))
    {
      ghost var s0 := slots;
      for ci := 0 to |Categories|
        invariant slots == Outfit(if ci > 0 then DropHandles(s0.outer) else s0.outer,
                                  if ci > 1 then DropHandles(s0.inner) else s0.inner,
                                  if ci > 2 then DropHandles(s0.bottoms) else s0.bottoms)
        invariant Data() == old(Data()).(slots := slots)
      {
        var cat := Categories[ci];
        var ys := DropCategoryHandles(Get(slots, cat));
        slots := With(slots, cat, ys);
      }
    }

    /** `restoreAppState` (app.js:646-710). */
    method RestoreAppState(store: Store, now: nat, suffix: string, remoteFails: bool, enc: Encoders)
      modifies this, store
      ensures Data() == AfterRestore(old(Data()), Load(old(store.tiers), SessionIdFor(old(store.sessionId), now, suffix), remoteFails, enc), enc)
      ensures store.tiers == old(store.tiers)
      ensures store.sessionId == Some(SessionIdFor(old(store.sessionId), now, suffix))
    {
      var id := store.GetSessionId(now, suffix);
      var saved := store.LoadState(id, remoteFails, enc);
      if saved.None? {
        return;
      }
      var restored := RestoreImagesFromBase64(saved.value, enc);
      Assign(restored.data);
      if Truthy(base) && StartsWith(base.value, "blob:") {
        base := None;
      }
      if Truthy(composed) && StartsWith(composed.value, "blob:") {
        composed := None;
      }
      DropSlotHandles();
      status := StatusAfterRestore(Data());
    }
  }
}
