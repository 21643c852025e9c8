# Virtual fitting session — a Dafny model

The application lets a user upload a photo of a person. A Gemini model finds
the garments the person wears, and the user then dresses the person in other
garments, slot by slot.

A session (`appState`) has:

- a status: EMPTY, ANALYZING, READY, GENERATING, DONE or ERROR;
- the base photo;
- two tables of image slots, the *baseline* and the user's *slots*, each with
  two outer, three inner and two bottoms positions;
- the composite image;
- the prompt;
- an error message.

The model covers four parts of the code:

- **Detection.** After an upload, six generic detections fill the baseline
  with thumbnails.
- **Composition.** A change to a slot recomposes the merged tables on top of
  the base photo. The garments are worn innermost first, and the call falls
  back through a list of eight model names.
- **Persistence.** Saving turns every image handle into an encoding with a
  flag. The state goes to local storage (up to 5 MB) and to a remote table.
  Loading prefers the local tier and decodes the flagged fields.
- **Restore.** Handles do not survive a reload, so every remaining handle is
  dropped and the status is derived from what is left.

Modules:

- `Values`, `Layers`: JS truthiness, string tests, the slot tables, the
  detection and wearing orders, the merge.
- `Gemini`: replies of a generation endpoint and the two ways images are read
  out of them: the first `image/` inline part, and the first image URL the
  regular expression finds in the text.
- `Detection`: `api/image-generation.js`, covering the prompt table, the
  classification of one reply, the walk over the eight detection candidates,
  the conversion of external URLs and `generateGarmentThumbnail`.
- `Composition`: `generateVirtualTryOn` of `app.js`, covering the garments to
  wear, the request parts, one candidate's attempt and the fallback loop.
- `AppState`, `Persistence`: the session record, and the storage codec and
  tiers of `api/supabase-config.js`. The `Store` class holds the session id
  and the two tiers.
- `Session`: the `Session` class with the operations of `app.js`. Each
  method is proved equal to a function on `SessionData` that states its whole
  effect, and lemmas state the properties of those functions.

Code that calls over the network or reads a clock takes what it would
observe as parameters:

- the replies of each candidate (`Reply`);
- the result of fetching a URL (`Download`);
- the image encoder and the codec's primitives (`Encoders`: compression,
  reading a handle, minting a handle);
- the time and random suffix of a new session id;
- whether each storage tier accepts a write.

## Model

| member | source | states |
|---|---|---|
| Layers.ParseCategory | app.js:271-273 | a name is accepted exactly when it is one of `outer`, `inner`, `bottoms`, and maps back to that name |
| Layers.Put | app.js:281 | JS array assignment: a negative index changes no element; an index past the end grows the array with empty entries; the target reads the new value and every other element is kept |
| Layers.WriteInCapacity | app.js:275-281 | a write inside the capacity of a well-shaped table sets that slot, keeps the shape and changes no other slot |
| Layers.WriteSlots | app.js:322 | a write at any non-negative index sets that slot and no other, whatever the table's shape |
| Layers.AllEmptyMeansNoSlot | app.js:335-337 | the `every(slot => !slot)` test holds exactly when no slot position holds a truthy value |
| Layers.WearingOrderIsBijection | app.js:448-456 | the wearing order lists each of the seven positions exactly once, so layer numbers identify positions |
| Layers.DetectionOrderCoverage | app.js:183-190 | the six detections visit distinct positions: every position except the second bottoms slot |
| Layers.MergeLaw | app.js:387-397 | in the merged table a truthy user slot wins and an empty one falls back to the baseline |
| Layers.MergeIdempotent | app.js:387-397 | merging the merged table with the same baseline again changes nothing |
| Layers.MergeUnits | app.js:387-397 | an empty user table yields the baseline; over an empty baseline exactly the truthy user slots are set |
| Gemini.FirstInlineImage | api/image-generation.js:195-199 | the result is `data:<mime>;base64,<data>` of the first part with an `image/` media type, no earlier part qualifying; none exactly when no part qualifies |
| Gemini.FirstImageUrl | api/image-generation.js:203 | a match is an `http(s)://` URL without whitespace ending in an image extension, and it occurs in the text; no match means no position starts one |
| Gemini.FirstImageUrlIsLeftmost | api/image-generation.js:203 | the match returned starts at the leftmost position where a match exists |
| Gemini.MatchAt | api/image-generation.js:203 | a match at a position is an image URL starting with the scheme there, and it is greedy: it ends after the extension of the last dot of the following non-space run that an extension follows |
| Gemini.MatchAtIsGreedy | api/image-generation.js:203 | a dot and an extension further along the same non-space run always lie inside the match |
| Gemini.MatchAtComplete | api/image-generation.js:203 | a scheme followed without whitespace by a dot and an image extension is matched there, so the text has a first image URL |
| Detection.DescribePrecedence | api/image-generation.js:31-84 | the category's entry wins over the garment type's, and the generic entry is the last resort |
| Detection.PipelinePromptsAreGeneric | app.js:200 | the pipeline's category `default` always selects the generic description |
| Detection.DetectionRequest | api/image-generation.js:104-120 | the request is the JPEG of the photo, if any, followed by the prompt |
| Detection.AllTextContainsPart | api/image-generation.js:173-178 | every part's text occurs inside the concatenated response text |
| Detection.SaysAbsentReduces | api/image-generation.js:182-187 | the `NOT_FOUND` and `NOT FOUND` markers add nothing, because the `NO` test already covers them |
| Detection.ClassifyCases | api/image-generation.js:152-240 | an answer is `NOT_FOUND`, a `data:image/` URL or a non-placeholder image URL; a timeout, a non-OK status or a reply without parts is skipped; another exception answers `NOT_FOUND` exactly when its message carries a not-found marker, else it is skipped; negative text beats an inline image, which is the answer; otherwise the answer is the first image URL of the non-empty text unless it is a placeholder, and nothing else answers |
| Detection.NegativeTextBeatsImage | api/image-generation.js:180-199 | any part whose upper-cased text contains `NO` makes the reply `NOT_FOUND`, even with an image part present |
| Detection.AffirmativeWithNoReadsAbsent | api/image-generation.js:182-190 | the text `YES, I know` is read as `NOT_FOUND` |
| Detection.ClassifyReply | api/image-generation.js:152-240 | the loop that concatenates the text and scans the parts computes the classification |
| Detection.FirstAnswerIsFirst | api/image-generation.js:122-245 | the result is the first candidate that does not skip, every earlier candidate skipped, and null exactly when all skip, after all are consulted |
| Detection.CallNanoBananaApi | api/image-generation.js:86-246 | with a key, the request is the detection request and the candidates are contacted in list order up to the first answer, whose answer is returned; without a key it throws, builds nothing and contacts none |
| Detection.AllTimeoutsGiveNull | api/image-generation.js:222-245 | when every candidate times out, all eight are tried and the result is null |
| Detection.ConvertExternalUrlToBlob | api/image-generation.js:320-359 | a `blob:` handle is returned exactly when the host is reachable, the fetch succeeds with `ok`, and the body is an `image/` blob |
| Detection.UnreachableHostNeverFetched | api/image-generation.js:322-328 | on a listed unreachable host the result is null, whatever the network would do |
| Detection.GarmentThumbnailShape | api/image-generation.js:364-410 | no photo, no key or a `NOT_FOUND` answer gives null; any thumbnail is a `data:image/` URL, a `blob:` handle or an image URL |
| Detection.RefineKeepsUnfetchedUrl | api/image-generation.js:384-393 | an external URL that cannot be converted is returned as it is |
| Detection.RefineKeepsInline | api/image-generation.js:395-396 | a `data:` answer is returned unchanged |
| Detection.UpperCaseSchemeIsNotConverted | api/image-generation.js:384 | a URL with an upper-case scheme bypasses the conversion, since the prefix test is case-sensitive |
| Composition.WearIsFilter | app.js:459-464 | the filter keeps exactly the truthy positions with their URLs, in the given order |
| Composition.GarmentsToWearIsLayered | app.js:448-464 | the garments are exactly the truthy positions within capacity, each once, with strictly increasing layer numbers |
| Composition.NothingToWear | app.js:468-470 | nothing is worn exactly when no position within capacity is truthy |
| Composition.EncodeAll | app.js:473-477 | the conversion succeeds exactly when every image converts, and keeps their order |
| Composition.TryOnRequestNumbering | app.js:515-534 | part 1 is the base photo, part k+1 is garment k, and the prompt comes last |
| Composition.AttemptCases | app.js:573-606 | a thrown error fails with that error; 429, 404 and 400 move on, any other non-OK status fails with it; an image part is the result; without one the result is the URL in the first part's text, and with neither, or without parts, the attempt fails for want of an image |
| Composition.SecondPartUrlIgnored | app.js:597-606 | only the first part's text is searched for a URL |
| Composition.FallbackSuccess | app.js:548-618 | a successful result is the image of some candidate |
| Composition.FallbackFindsFirst | app.js:548-618 | the result is the image of the first candidate that yields one |
| Composition.FallbackFailure | app.js:548-618 | a failure means no candidate yielded an image |
| Composition.FallbackWithoutImage | app.js:607-618 | without an image the error is the last candidate's own error when it threw, else "all models failed" |
| Composition.AllRateLimited | app.js:576-577 | eight rate-limited replies end with "all models failed" |
| Composition.RunFallback | app.js:548-618 | the loop over the candidates computes the fallback over their attempts |
| Composition.VirtualTryOnOutcome | app.js:438-619 | no key, nothing to wear and an unconvertible base photo fail with their own errors; a success is a `data:image/` URL or an image URL |
| Composition.GenerateVirtualTryOn | app.js:438-619 | the early checks, the request sent when they pass, and the fallback's result |
| AppState.StatusAfterRestore | app.js:692-699 | DONE exactly with a composite, READY with only a base photo, EMPTY with neither |
| Persistence.DataImagePayloadRoundTrip | api/supabase-config.js:87-89 | the `data:image` expression captures the payload of every URL built from a subtype without `;` and a one-line payload |
| Persistence.DataImagePayloadShape | api/supabase-config.js:87-89 | every captured payload is one non-empty line and comes from a URL built from a non-empty subtype without `;`, the marker and that payload |
| Persistence.ImageUrlToBase64ForStorageCases | api/supabase-config.js:72-148 | nothing from nothing; a handle gives its compressed encoding or null; remote and other references give null; SVG data URLs pass through |
| Persistence.ConvertFieldCases | api/supabase-config.js:288-302 | a field is passed through, replaced by its encoding and flagged, or emptied; the flag is set exactly for a readable handle |
| Persistence.ConvertStateKeeps | api/supabase-config.js:284-351 | conversion keeps the baseline, status, prompt, message and every `data:` field (base, composite and each slot), flags only non-empty values and keeps the table lengths |
| Persistence.ConvertedFieldsAreStorable | api/supabase-config.js:284-351 | after conversion the base, the composite and every slot are empty, a `data:` URL or flagged |
| Persistence.Base64ToImageUrl | api/supabase-config.js:153-166 | an SVG data URL is returned as it is; any other value becomes a `blob:` handle, or null when decoding fails |
| Persistence.RestoreImagesCases | api/supabase-config.js:356-409 | a flagged present base or composite is decoded and unflagged, an unflagged handle dropped, a flagged empty field kept with its flag; with a flag table only flagged slots change, without one slot handles are dropped |
| Persistence.SaveRestoreRoundTrip | api/supabase-config.js:284-409 | a `data:` base photo or composite survives save and restore; any other one comes back as the decoding of its stored encoding, or empty when none was stored; baseline, prompt and status are kept |
| Persistence.SaveRestoreSlotRoundTrip | api/supabase-config.js:322-406 | an empty or `data:` slot survives save and restore; a flagged slot comes back as the decoding of its encoding; any other reference comes back empty |
| Session.InlineImageIsStorable | app.js:589-592 | the `data:` URL the composition makes of an image part is taken apart by the storage expression into that part's data, when the subtype has no `;` and the data is one line |
| Persistence.ReloadedHasNoHandles | app.js:646-699 | after a restore no base photo, composite or slot is a handle, and the status matches what remains |
| Persistence.ReloadKeepsInitial | app.js:646-699 | a restore keeps the baseline exactly as loaded, handles included |
| Persistence.WholeRestoreOfSavedBase | app.js:646-699 | through save, load and restore a non-`data:` base photo comes back empty unless it is an SVG data URL |
| Persistence.StateKeyIsNotSessionKey | api/supabase-config.js:172-196 | the state key never collides with the session id key |
| Persistence.Utf8SizeBounds | api/supabase-config.js:191 | the byte size the 5 MB test measures is between one and four bytes per character |
| Persistence.LocalLimitInCharacters | api/supabase-config.js:190-193 | a serialized state of at most a quarter of the limit in characters always fits the local tier, one longer than the limit never does |
| Persistence.SaveTiersIndependent | api/supabase-config.js:189-231 | the remote upsert does not depend on the size or on the local write; an oversized state or a failed local write leaves the local tier as it was |
| Persistence.SaveThenLoadLocal | api/supabase-config.js:183-279 | a state at most 5 MB that the local tier accepts is loaded back from it |
| Persistence.SaveThenLoadRemote | api/supabase-config.js:183-279 | a larger state with no local copy is loaded back from the remote tier |
| Persistence.StaleLocalCopyWins | api/supabase-config.js:193-246 | a larger state reaches the remote tier, but loading returns the older local copy |
| Persistence.LoadNull | api/supabase-config.js:237-279 | null exactly when there is no parsable local copy and the remote tier is absent, fails or has no row |
| Persistence.NewSessionId | api/supabase-config.js:174 | a new id starts with `session_` |
| Persistence.SessionIdIsStable | api/supabase-config.js:171-178 | once an id is stored, every later call returns it |
| Persistence.ConvertCategory | api/supabase-config.js:324-346 | the loop over one table converts each slot and records its flag |
| Persistence.AnyFlagExtend | api/supabase-config.js:333-335 | the flag table has a set flag exactly when some category contributed one |
| Persistence.ConvertImagesToBase64 | api/supabase-config.js:284-351 | the imperative conversion computes the converted state |
| Persistence.RestoreCategory | api/supabase-config.js:382-406 | the loop over one table decodes the flagged slots, or drops handles without flags |
| Persistence.RestoreImagesFromBase64 | api/supabase-config.js:356-409 | the imperative restore computes the restored state |
| Persistence.Store.GetSessionId | api/supabase-config.js:171-178 | returns the stored id or a new one, which is then stored; storage tiers unchanged |
| Persistence.Store.SaveState | api/supabase-config.js:183-231 | the tiers become those of saving the converted state, the local test measuring the UTF-8 size of its serialized text |
| Persistence.Store.LoadState | api/supabase-config.js:237-279 | returns the load of the current tiers |
| Session.DetectionIndex | app.js:183-190 | the place of a position in the detection order, none exactly for positions not visited |
| Session.FillSlots | app.js:194-228 | after n detections a visited position holds its truthy result and every other position its old value |
| Session.PipelineFillsBaseline | app.js:194-228 | the pipeline writes only truthy thumbnails, only to the six visited positions, never to the second bottoms slot |
| Session.TryOnCases | app.js:373-423 | a try-on changes only composite, status and message; DONE comes with an image and no message, every failure is ERROR with its cause; no base photo fails first |
| Session.UploadResets | app.js:90-121 | an upload first clears both tables and enters ANALYZING; it keeps the prompt, clears composite, slots and message, and ends READY with the detected baseline; a failed upload changes only status and message |
| Session.ReplaceSlotCases | app.js:266-313 | a bad category or index changes no slot and reports why; otherwise exactly that slot is written and the session recomposes only from READY or DONE |
| Session.RemoveGarmentCases | app.js:318-368 | an unknown category is an error; otherwise only that slot is cleared; the last garment returns to READY without recomposing and keeps the message, else the session recomposes |
| Session.StaleMessageAfterRemove | app.js:339-344 | after a failed try-on, removing the only garment shows READY with the failure message still set |
| Session.InitialHasDoneComposite | app.js:16-38 | the initial session has "DONE implies a composite" |
| Session.TryOnKeepsDoneHasComposite | app.js:373-423 | a try-on keeps "DONE implies a composite" |
| Session.UploadKeepsDoneHasComposite | app.js:90-121 | an upload keeps "DONE implies a composite" |
| Session.RestoreKeepsDoneHasComposite | app.js:646-710 | a restore keeps "DONE implies a composite" |
| Session.ReplaceKeepsDoneHasComposite | app.js:266-313 | replacing a slot keeps "DONE implies a composite" |
| Session.RemoveKeepsDoneHasComposite | app.js:318-368 | removing a garment keeps "DONE implies a composite" |
| Session.RestoreCases | app.js:646-710 | nothing loaded changes nothing; otherwise no handle remains, the status matches what remains and the baseline is the loaded one |
| Session.DropCategoryHandles | app.js:674-683 | the loop empties every handle of one table and keeps the rest |
| Session.Session.constructor | app.js:16-38 | the session starts as the initial state |
| Session.Session.TransitionTo | app.js:43-48 | only status and message change |
| Session.Session.ResetAllState | app.js:53-87 | the session returns to the initial state, prompt included |
| Session.Session.RunInlinePipeline | app.js:147-260 | the six detections fill the baseline as the fill function states, then READY; slots, images and prompt are untouched |
| Session.Session.HandlePhotoUpload | app.js:90-121 | the new state is the upload function of the old one |
| Session.Session.RequestTryOn | app.js:373-423 | the new state is the try-on outcome of the old one |
| Session.Session.ReplaceSlot | app.js:266-313 | the new state is the replace function of the old one |
| Session.Session.RemoveGarment | app.js:318-368 | the new state is the remove function of the old one, and the tiers are those of saving it under the session id |
| Session.Session.DropSlotHandles | app.js:674-683 | every handle in the slot tables is emptied, nothing else changes |
| Session.Session.RestoreAppState | app.js:646-710 | the new state is the restore of what loading under the session id returns; that id is the one stored afterwards; the tiers are unchanged |

## Left out

- DOM, rendering and event handling (`updateUI` and what it calls, drag scrolling, listeners, `initApp`): no state of the core.
- The debounced `saveAppState` (app.js:626-641): it runs on a timer. The model contains the save `removeGarment` makes directly.
- Concurrency: an operation's awaits can interleave with other operations in the browser. The model runs each operation to completion.
- `compressImage`: canvas work in floating point. It is the `compress` parameter, which also covers the fallback to the uncompressed value on failure.
- `Upper`/`Lower` map only ASCII letters. JS case mapping of other scripts is not modelled.
- Object keys that are not the three categories but exist on every object (such as `constructor`) are treated as unknown categories, and non-integer indices are not modelled. The index is an `int`.
- JSON parsing is modelled as the inverse of `JSON.stringify`, which is the `serialize` parameter: a stored state is read back as written. `Stored` keeps the flags beside the data instead of inside the copied object.
- A failing `localStorage.setItem` inside `getSessionId`: the id is always stored.
- A base64 conversion that yields `undefined` for a URL without a comma: conversion either succeeds with a string or fails.
- The wording of the Korean try-on prompt: it is the `instructions` parameter. `generateVirtualTryOn` does not use the user's `prompt`, and neither does the model.
- `callDALLEAPI`, `generateDummyThumbnail`, `api/detect-garments.js` and `config.example.js`: nothing in the core calls them.
- `initSupabase` and `clearLocalStorage`: the client is the `client` flag of the tiers, and clearing is not in the core's call paths.
- The pipeline's `catch` that rethrows, and the ERROR of a failed recognition (app.js:127-138): `generateGarmentThumbnail` catches every error itself, so they are unreachable.
- The `detectedGarments` constant is modelled only as a flag saying that it has been set.
- Session.Session.HandlePhotoUpload: an upload failure is modelled only where `createObjectURL` can throw, as `photo == None`.

## Behaviour of the code worth knowing

- A restored image is never validated: any stored string minting a handle is accepted.
- When the last composition candidate ends on a retryable status, the error is "all models failed", not that candidate's error.
- `callNanoBananaAPI` throws when the key is missing, and `generateGarmentThumbnail` turns that into null.
- `http(s)` image URLs are nulled on save (only `data:` and readable `blob:` values survive). The `data:` branch of `imageUrlToBase64ForStorage` is never reached from `convertImagesToBase64`, which skips `data:` values.
- A state too large for local storage leaves a stale local copy, and `loadState` prefers it.
- Decoded handles never survive a whole restore: `restoreAppState` drops every `blob:` value after decoding. The baseline table is never scrubbed.
