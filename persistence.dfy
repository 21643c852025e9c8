/** Saving and restoring a session (api/supabase-config.js): the conversion
    of image references into storable text, its inverse, the two storage
    tiers, and the session id. */
module Persistence {
  import opened Values
  import opened Layers
  import opened AppState

  // ---------------------------------------------------------------------
  // The browser primitives.

  /** What the codec asks of the browser, left uninterpreted:
      - `compress(b, side)`: `compressImage(b, side, side, 0.7)`, the
        re-encoded payload (or `b` itself when the image cannot be loaded);
      - `readBlob(u)`: the base64 text of the blob behind handle `u`, None
        when reading it throws;
      - `mint(b)`: the handle `createObjectURL` gives a blob made of the
        bytes `atob(b)`, None when `atob` throws. */
  datatype Encoders = Encoders(
    compress: (string, nat) -> string,
    readBlob: string -> Option<string>,
    mint: string -> Option<string>)

  /** The longest side a stored image keeps. */
  function MaxSide(thumbnail: bool): nat {
    if thumbnail then 512 else 800
  }

  // ---------------------------------------------------------------------
  // `/^data:image\/[^;]+;base64,(.+)$/`

  const DataImagePrefix := "data:image/"
  const Base64Marker := ";base64,"

  /** The characters `.` does not match. */
  predicate IsLineTerminator(c: char) {
    c == '\n' || c == '\r' || c == '\U{2028}' || c == '\U{2029}'
  }

  /** The first `;` at or after `i`. */
  function SemicolonFrom(u: string, i: nat): (r: Option<nat>)
    ensures r.Some? ==> i <= r.value < |u| && u[r.value] == ';'
    decreases |u| - i
  {
    if i >= |u| then None else if u[i] == ';' then Some(i) else SemicolonFrom(u, i + 1)
  }

  lemma {:induction false} SemicolonFromIsFirst(u: string, i: nat)
    ensures SemicolonFrom(u, i).Some? ==> forall k :: i <= k < SemicolonFrom(u, i).value ==> u[k] != ';'
    ensures SemicolonFrom(u, i).None? ==> forall k :: i <= k < |u| ==> u[k] != ';'
    decreases |u| - i
  {
    if i < |u| && u[i] != ';' {
      SemicolonFromIsFirst(u, i + 1);
    }
  }

  predicate NoLineTerminator(s: string) {
    forall k :: 0 <= k < |s| ==> !IsLineTerminator(s[k])
  }

  /** The captured group of the expression: the media subtype runs up to
      the first `;`, which must open `;base64,`; the payload is the rest, at
      least one character and no line terminator. */
  function DataImagePayload(u: string): Option<string> {
    if !StartsWith(u, DataImagePrefix) then None
    else match SemicolonFrom(u, |DataImagePrefix|)
      case None => None
      case Some(p) =>
        if p == |DataImagePrefix| || !StartsWith(u[p..], Base64Marker) then None
        else
          var payload := u[p + |Base64Marker|..];
          if payload == [] || !NoLineTerminator(payload) then None else Some(payload)
  }

  /** The expression takes apart exactly the data URLs that are put
      together from a subtype without `;` and a one-line payload. */
  lemma DataImagePayloadRoundTrip(subtype: string, payload: string)
    requires subtype != [] && forall k :: 0 <= k < |subtype| ==> subtype[k] != ';'
    requires payload != [] && NoLineTerminator(payload)
    ensures DataImagePayload(DataImagePrefix + subtype + Base64Marker + payload) == Some(payload)
  {
    var u := DataImagePrefix + subtype + Base64Marker + payload;
    var p := |DataImagePrefix| + |subtype|;
    assert u[..|DataImagePrefix|] == DataImagePrefix;
    SemicolonFromIsFirst(u, |DataImagePrefix|);
    assert u[p] == ';';
    assert forall k :: |DataImagePrefix| <= k < p ==> u[k] == subtype[k - |DataImagePrefix|];
    assert u[p..][..|Base64Marker|] == Base64Marker;
    assert u[p + |Base64Marker|..] == payload;
  }

  /** A payload is only found after a non-empty subtype without `;` and
      the marker, and it is one line. */
  lemma DataImagePayloadShape(u: string)
    requires DataImagePayload(u).Some?
    ensures NoLineTerminator(DataImagePayload(u).value) && DataImagePayload(u).value != []
    ensures exists subtype ::
      && subtype != [] && (forall k :: 0 <= k < |subtype| ==> subtype[k] != ';')
      && u == DataImagePrefix + subtype + Base64Marker + DataImagePayload(u).value
  {
    var p := SemicolonFrom(u, |DataImagePrefix|).value;
    SemicolonFromIsFirst(u, |DataImagePrefix|);
    var subtype := u[|DataImagePrefix|..p];
    assert forall k :: 0 <= k < |subtype| ==> subtype[k] == u[|DataImagePrefix| + k];
    assert u == u[..|DataImagePrefix|] + subtype + u[p..][..|Base64Marker|] + u[p + |Base64Marker|..];
  }

  // ---------------------------------------------------------------------
  // Converting for storage.

  /** `imageUrlToBase64ForStorage` (api/supabase-config.js:72-148), whose
      every exception ends in null. */
  function ImageUrlToBase64ForStorage(url: Field, thumbnail: bool, enc: Encoders): Field {
    if !Truthy(url) then None
    else
      var u := url.value;
      if StartsWith(u, "data:") then
        if Contains(u, "svg+xml") then url
        else match DataImagePayload(u)
          case Some(payload) => Some(enc.compress(payload, MaxSide(thumbnail)))
          case None => url
      else if StartsWith(u, "blob:") then
        match enc.readBlob(u)
        case Some(b) => Some(enc.compress(b, MaxSide(thumbnail)))
        case None => None
      else None
  }

  /** The dispatch: nothing from nothing, an encoding from a handle that can
      be read, and null from every other non-`data:` reference. */
  lemma ImageUrlToBase64ForStorageCases(url: Field, thumbnail: bool, enc: Encoders)
    ensures !Truthy(url) ==> ImageUrlToBase64ForStorage(url, thumbnail, enc).None?
    ensures Truthy(url) && StartsWith(url.value, "blob:") ==>
      ImageUrlToBase64ForStorage(url, thumbnail, enc) ==
        if enc.readBlob(url.value).Some? then Some(enc.compress(enc.readBlob(url.value).value, MaxSide(thumbnail))) else None
    ensures Truthy(url) && KindOf(url.value) == Remote ==> ImageUrlToBase64ForStorage(url, thumbnail, enc).None?
    ensures Truthy(url) && KindOf(url.value) == Unknown ==> ImageUrlToBase64ForStorage(url, thumbnail, enc).None?
    ensures Truthy(url) && StartsWith(url.value, "data:") && Contains(url.value, "svg+xml") ==>
      ImageUrlToBase64ForStorage(url, thumbnail, enc) == url
  {
    if Truthy(url) && StartsWith(url.value, "blob:") {
      assert url.value[0] == url.value[..5][0];
    }
  }

  /** One field after conversion, and whether its flag was set. */
  datatype Converted = Converted(value: Field, flag: bool)

  /** The conversion of one field (api/supabase-config.js:288-302, 322-339):
      only a truthy non-`data:` value is converted; a truthy encoding
      replaces it and sets the flag, anything else nulls it. */
  function ConvertField(v: Field, thumbnail: bool, enc: Encoders): Converted {
    if Truthy(v) && !StartsWith(v.value, "data:") then
      var b := ImageUrlToBase64ForStorage(v, thumbnail, enc);
      if Truthy(b) then Converted(b, true) else Converted(None, false)
    else Converted(v, false)
  }

  /** The cases of one field: passed through, replaced and flagged, or
      dropped; a flagged value is an encoding of a handle. */
  lemma ConvertFieldCases(v: Field, thumbnail: bool, enc: Encoders)
    ensures var c := ConvertField(v, thumbnail, enc);
      && (!Truthy(v) || StartsWith(v.value, "data:") ==> c == Converted(v, false))
      && (c.flag <==> Truthy(v) && StartsWith(v.value, "blob:") && enc.readBlob(v.value).Some?
                      && enc.compress(enc.readBlob(v.value).value, MaxSide(thumbnail)) != "")
      && (c.flag ==> c.value == Some(enc.compress(enc.readBlob(v.value).value, MaxSide(thumbnail))))
      && (Truthy(v) && !StartsWith(v.value, "data:") && !c.flag ==> c.value.None?)
  {
    ImageUrlToBase64ForStorageCases(v, thumbnail, enc);
    if Truthy(v) && !StartsWith(v.value, "data:") && !StartsWith(v.value, "blob:") {
      assert KindOf(v.value) == Remote || KindOf(v.value) == Unknown;
    }
  }

  /** `_slotsBase64`: the flag of each slot position, aligned with the
      slot tables; a position without an entry is unflagged. */
  datatype Flags = Flags(outer: seq<bool>, inner: seq<bool>, bottoms: seq<bool>)

  function GetFlags(f: Flags, c: Category): seq<bool> {
    match c
    case Outer => f.outer
    case Inner => f.inner
    case Bottoms => f.bottoms
  }

  function FlagAt(f: Flags, c: Category, i: nat): bool {
    i < |GetFlags(f, c)| && GetFlags(f, c)[i]
  }

  /** What is written to storage: the converted data and its flags. */
  datatype Stored = Stored(data: SessionData, baseFlag: bool, composedFlag: bool, slotFlags: Option<Flags>)

  function ConvertSlots(xs: seq<Field>, enc: Encoders): (r: seq<Field>)
    ensures |r| == |xs|
  {
    seq(|xs|, i requires 0 <= i < |xs| => ConvertField(xs[i], true, enc).value)
  }

  function SlotFlags(xs: seq<Field>, enc: Encoders): (r: seq<bool>)
    ensures |r| == |xs|
  {
    seq(|xs|, i requires 0 <= i < |xs| => ConvertField(xs[i], true, enc).flag)
  }

  function ConvertOutfit(o: Outfit, enc: Encoders): Outfit {
    Outfit(ConvertSlots(o.outer, enc), ConvertSlots(o.inner, enc), ConvertSlots(o.bottoms, enc))
  }

  function OutfitFlags(o: Outfit, enc: Encoders): Flags {
    Flags(SlotFlags(o.outer, enc), SlotFlags(o.inner, enc), SlotFlags(o.bottoms, enc))
  }

  predicate AnyFlag(f: Flags) {
    exists c: Category, i :: 0 <= i < |GetFlags(f, c)| && GetFlags(f, c)[i]
  }

  /** `convertImagesToBase64` (api/supabase-config.js:284-351) on a copy of
      the state: base and composite as full images, slots as thumbnails;
      the flag table exists once any slot was flagged. */
  function ConvertState(d: SessionData, enc: Encoders): Stored {
    var b := ConvertField(d.base, false, enc);
    var c := ConvertField(d.composed, false, enc);
    var flags := OutfitFlags(d.slots, enc);
    Stored(d.(base := b.value, composed := c.value, slots := ConvertOutfit(d.slots, enc)),
           b.flag, c.flag, if AnyFlag(flags) then Some(flags) else None)
  }

  /** What conversion changes and what it keeps: the baseline table, the
      status, the prompt and every `data:` field pass through; each other
      field is flagged or emptied. */
  lemma ConvertStateKeeps(d: SessionData, enc: Encoders)
    ensures var s := ConvertState(d, enc);
      && s.data.initial == d.initial && s.data.status == d.status && s.data.prompt == d.prompt
      && s.data.detected == d.detected && s.data.errorMessage == d.errorMessage
      && (Truthy(d.base) && StartsWith(d.base.value, "data:") ==> s.data.base == d.base && !s.baseFlag)
      && (Truthy(d.composed) && StartsWith(d.composed.value, "data:") ==> s.data.composed == d.composed && !s.composedFlag)
      && (s.baseFlag ==> Truthy(s.data.base)) && (s.composedFlag ==> Truthy(s.data.composed))
      && (forall c: Category :: |Get(s.data.slots, c)| == |Get(d.slots, c)|)
      && (forall slot: Slot ::
            Truthy(SlotAt(d.slots, slot)) && StartsWith(SlotAt(d.slots, slot).value, "data:") ==>
              SlotAt(s.data.slots, slot) == SlotAt(d.slots, slot))
  {
  }

  /** After conversion every field is empty, an unchanged `data:` value, or
      a flagged encoding: an `http(s)` reference is never stored. */
  lemma ConvertedFieldsAreStorable(d: SessionData, enc: Encoders, s: Slot)
    requires s.index < |Get(d.slots, s.category)|
    ensures var st := ConvertState(d, enc);
      && (st.data.base.None? || StartsWith(st.data.base.value, "data:") || st.baseFlag || st.data.base == Some(""))
      && (st.data.composed.None? || StartsWith(st.data.composed.value, "data:") || st.composedFlag || st.data.composed == Some(""))
      && var v := SlotAt(st.data.slots, s);
         (v.None? || v == Some("") || StartsWith(v.value, "data:")
          || (st.slotFlags.Some? && FlagAt(st.slotFlags.value, s.category, s.index)))
  {
    var x := SlotAt(d.slots, s);
    assert SlotAt(ConvertState(d, enc).data.slots, s) == ConvertField(x, true, enc).value;
    assert FlagAt(OutfitFlags(d.slots, enc), s.category, s.index) == ConvertField(x, true, enc).flag;
  }

  // ---------------------------------------------------------------------
  // Restoring.

  const SvgDataPrefix := "data:image/svg+xml"

  /** `base64ToImageUrl` (api/supabase-config.js:153-166): an SVG data URL
      is kept; anything else is decoded into a new handle, or null when it
      is not base64. Nothing checks the length or the alphabet first. */
  function Base64ToImageUrl(b: string, enc: Encoders): (r: Field)
    ensures r.Some? ==> (StartsWith(r.value, SvgDataPrefix) && r.value == b) || StartsWith(r.value, "blob:")
    ensures StartsWith(b, SvgDataPrefix) ==> r == Some(b)
    ensures r.None? <==> !StartsWith(b, SvgDataPrefix) && enc.mint(b).None?
  {
    if StartsWith(b, SvgDataPrefix) then Some(b)
    else match enc.mint(b)
      case Some(handle) => Some("blob:" + handle)
      case None => None
  }

  /** One field and its flag after restoring (api/supabase-config.js:360-379):
      a flagged value is decoded and its flag removed; an unflagged handle
      is dropped, as it dangles after a reload. */
  function RestoreField(v: Field, flag: bool, enc: Encoders): Converted {
    if flag && Truthy(v) then Converted(Base64ToImageUrl(v.value, enc), false)
    else if Truthy(v) && StartsWith(v.value, "blob:") then Converted(None, flag)
    else Converted(v, flag)
  }

  function DecodeFlagged(xs: seq<Field>, flags: seq<bool>, enc: Encoders): (r: seq<Field>)
    ensures |r| == |xs|
  {
    seq(|xs|, i requires 0 <= i < |xs| =>
      if i < |flags| && flags[i] && Truthy(xs[i]) then Base64ToImageUrl(xs[i].value, enc) else xs[i])
  }

  /** `null` for a handle, everything else unchanged. */
  function DropHandle(v: Field): (r: Field)
    ensures r.Some? ==> !StartsWith(r.value, "blob:") || r.value == ""
  {
    if Truthy(v) && StartsWith(v.value, "blob:") then None else v
  }

  function DropHandles(xs: seq<Field>): (r: seq<Field>)
    ensures |r| == |xs|
  {
    seq(|xs|, i requires 0 <= i < |xs| => DropHandle(xs[i]))
  }

  function RestoreSlots(slots: Outfit, flags: Option<Flags>, enc: Encoders): Outfit {
    match flags
    case Some(f) =>
      Outfit(DecodeFlagged(slots.outer, f.outer, enc), DecodeFlagged(slots.inner, f.inner, enc),
             DecodeFlagged(slots.bottoms, f.bottoms, enc))
    case None => Outfit(DropHandles(slots.outer), DropHandles(slots.inner), DropHandles(slots.bottoms))
  }

  /** `restoreImagesFromBase64` (api/supabase-config.js:356-409) on a copy.
      The flag table is deleted when present. */
  function RestoreImages(s: Stored, enc: Encoders): Stored {
    var b := RestoreField(s.data.base, s.baseFlag, enc);
    var c := RestoreField(s.data.composed, s.composedFlag, enc);
    Stored(s.data.(base := b.value, composed := c.value, slots := RestoreSlots(s.data.slots, s.slotFlags, enc)),
           b.flag, c.flag, None)
  }

  /** Restoring decodes a flagged present field and removes its flag, drops
      an unflagged handle, and leaves the rest; with a flag table only
      flagged slots change (an unflagged handle among them stays), without
      one every slot handle is dropped. */
  lemma RestoreImagesCases(s: Stored, enc: Encoders, slot: Slot)
    requires slot.index < |Get(s.data.slots, slot.category)|
    ensures var r := RestoreImages(s, enc);
      var v := SlotAt(s.data.slots, slot);
      && (s.baseFlag && Truthy(s.data.base) ==> r.data.base == Base64ToImageUrl(s.data.base.value, enc) && !r.baseFlag)
      && (!s.baseFlag ==> r.data.base == DropHandle(s.data.base) && !r.baseFlag)
      && (s.baseFlag && !Truthy(s.data.base) ==> r.data.base == s.data.base && r.baseFlag)
      && (s.composedFlag && Truthy(s.data.composed) ==>
            r.data.composed == Base64ToImageUrl(s.data.composed.value, enc) && !r.composedFlag)
      && (!s.composedFlag ==> r.data.composed == DropHandle(s.data.composed) && !r.composedFlag)
      && (s.composedFlag && !Truthy(s.data.composed) ==> r.data.composed == s.data.composed && r.composedFlag)
      && r.slotFlags.None?
      && r.data.initial == s.data.initial
      && (s.slotFlags.Some? ==>
            SlotAt(r.data.slots, slot) == if FlagAt(s.slotFlags.value, slot.category, slot.index) && Truthy(v) then Base64ToImageUrl(v.value, enc) else v)
      && (s.slotFlags.None? ==> SlotAt(r.data.slots, slot) == DropHandle(v))
  {
  }

  /** Saving and then restoring a state, field by field: a `data:` value
      comes back unchanged; a handle that could be read comes back as the
      handle of the stored encoding; any other reference comes back empty. */
  lemma SaveRestoreRoundTrip(d: SessionData, enc: Encoders)
    ensures var r := RestoreImages(ConvertState(d, enc), enc).data;
      && (Truthy(d.base) && StartsWith(d.base.value, "data:") ==> r.base == d.base)
      && (Truthy(d.base) && !StartsWith(d.base.value, "data:") ==>
            r.base == (var b := ImageUrlToBase64ForStorage(d.base, false, enc);
                       if Truthy(b) then Base64ToImageUrl(b.value, enc) else None))
      && (Truthy(d.composed) && StartsWith(d.composed.value, "data:") ==> r.composed == d.composed)
      && (Truthy(d.composed) && !StartsWith(d.composed.value, "data:") ==>
            r.composed == (var b := ImageUrlToBase64ForStorage(d.composed, false, enc);
                           if Truthy(b) then Base64ToImageUrl(b.value, enc) else None))
      && r.initial == d.initial && r.prompt == d.prompt && r.status == d.status
  {
  }

  /** Saving and then restoring one slot: an empty or `data:` value comes
      back unchanged, a handle whose encoding was flagged comes back as the
      handle of that encoding, and any other reference comes back empty. */
  lemma SaveRestoreSlotRoundTrip(d: SessionData, enc: Encoders, s: Slot)
    requires s.index < |Get(d.slots, s.category)|
    ensures var v := SlotAt(d.slots, s);
      var c := ConvertField(v, true, enc);
      var r := SlotAt(RestoreImages(ConvertState(d, enc), enc).data.slots, s);
      && (!Truthy(v) || StartsWith(v.value, "data:") ==> r == v)
      && (c.flag ==> r == Base64ToImageUrl(c.value.value, enc))
      && (Truthy(v) && !StartsWith(v.value, "data:") && !c.flag ==> r.None?)
  {
    var v := SlotAt(d.slots, s);
    var c := ConvertField(v, true, enc);
    var st := ConvertState(d, enc);
    ConvertFieldCases(v, true, enc);
    assert SlotAt(st.data.slots, s) == c.value;
    var flags := OutfitFlags(d.slots, enc);
    assert FlagAt(flags, s.category, s.index) == c.flag;
    if c.flag {
      assert GetFlags(flags, s.category)[s.index];
      assert AnyFlag(flags);
    }
    RestoredSlot(st, enc, s);
  }

  /** The slot that restoring makes of a stored slot. */
  lemma RestoredSlot(st: Stored, enc: Encoders, s: Slot)
    requires s.index < |Get(st.data.slots, s.category)|
    ensures var v := SlotAt(st.data.slots, s);
      SlotAt(RestoreImages(st, enc).data.slots, s) ==
        if st.slotFlags.Some? then
          (if FlagAt(st.slotFlags.value, s.category, s.index) && Truthy(v) then Base64ToImageUrl(v.value, enc) else v)
        else DropHandle(v)
  {
  }

  // ---------------------------------------------------------------------
  // The whole restore.

  /** What `restoreAppState` (app.js:646-710) makes of the state `loadState`
      returned: a second `restoreImagesFromBase64`, then every handle
      dropped, then the status derived from what remains. */
  function Reloaded(loaded: Stored, enc: Encoders): SessionData {
    var r := RestoreImages(loaded, enc).data;
    var d := r.(base := DropHandle(r.base), composed := DropHandle(r.composed),
                slots := Outfit(DropHandles(r.slots.outer), DropHandles(r.slots.inner), DropHandles(r.slots.bottoms)));
    d.(status := StatusAfterRestore(d))
  }

  /** No handle survives a reload in the base, the composite or the slots,
      and the status matches what remains. */
  lemma ReloadedHasNoHandles(loaded: Stored, enc: Encoders, s: Slot)
    ensures var d := Reloaded(loaded, enc);
      && (Truthy(d.base) ==> !StartsWith(d.base.value, "blob:"))
      && (Truthy(d.composed) ==> !StartsWith(d.composed.value, "blob:"))
      && (Truthy(SlotAt(d.slots, s)) ==> !StartsWith(SlotAt(d.slots, s).value, "blob:"))
      && d.status == StatusAfterRestore(d)
  {
    var d := Reloaded(loaded, enc);
    if Truthy(SlotAt(d.slots, s)) {
      var xs := Get(RestoreImages(loaded, enc).data.slots, s.category);
      assert SlotAt(d.slots, s) == DropHandle(xs[s.index]);
    }
  }

  /** The baseline table is neither converted nor restored nor scrubbed: a
      detected thumbnail held as a handle comes back as that (dangling)
      handle. */
  lemma ReloadKeepsInitial(loaded: Stored, enc: Encoders)
    ensures Reloaded(loaded, enc).initial == loaded.data.initial
  {
  }

  /** Whole restore of a saved state (the restore in `loadState`, then
      `Reloaded`): an image the save converted never survives unless its
      encoding decodes as an SVG data URL; a `data:` image survives. */
  lemma WholeRestoreOfSavedBase(d: SessionData, enc: Encoders)
    ensures var r := Reloaded(RestoreImages(ConvertState(d, enc), enc), enc);
      && (Truthy(d.base) && StartsWith(d.base.value, "data:") ==> r.base == d.base)
      && (Truthy(d.base) && !StartsWith(d.base.value, "data:") ==>
            r.base.None? || StartsWith(r.base.value, SvgDataPrefix))
  {
    SaveRestoreRoundTrip(d, enc);
    var once := RestoreImages(ConvertState(d, enc), enc);
    assert !once.baseFlag;
    if Truthy(d.base) && StartsWith(d.base.value, "data:") {
      assert d.base.value[..5] == "data:";
    }
  }

  // ---------------------------------------------------------------------
  // The storage tiers.

  /** What the local tier holds under a key: a text that parses as a saved
      state, or one that does not. */
  datatype LocalEntry = Parsed(state: Stored) | Garbled

  /** The local tier, the remote table keyed by session id, and whether a
      remote client was set up. */
  datatype Tiers = Tiers(local: map<string, LocalEntry>, remote: map<string, Stored>, client: bool)

  /** The local key of a session's state. */
  function StateKey(sessionId: string): string {
    "fashionAI_state_" + sessionId
  }

  const SessionIdKey := "fashionAI_sessionId"

  lemma StateKeyIsNotSessionKey(sessionId: string)
    ensures StateKey(sessionId) != SessionIdKey
  {
    assert StateKey(sessionId)[11] == 't' && SessionIdKey[11] == 'e';
  }

  /** The local tier skips a state over 5 MiB. */
  const LocalLimit: nat := 5 * 1024 * 1024

  function Utf8Length(c: char): nat {
    if c as int < 0x80 then 1 else if c as int < 0x800 then 2 else if c as int < 0x10000 then 3 else 4
  }

  /** `new Blob([text]).size`: the UTF-8 length of the text. */
  function Utf8Size(text: string): nat {
    if text == [] then 0 else Utf8Size(text[..|text| - 1]) + Utf8Length(text[|text| - 1])
  }

  /** One character takes one to four bytes. */
  lemma {:induction false} Utf8SizeBounds(text: string)
    ensures |text| <= Utf8Size(text) <= 4 * |text|
  {
    if text != [] {
      Utf8SizeBounds(text[..|text| - 1]);
    }
  }

  /** The size test in characters: a serialized text of at most a quarter
      of the limit is always written to the local tier, and one longer than
      the limit never is. */
  lemma LocalLimitInCharacters(t: Tiers, sessionId: string, stored: Stored, text: string, localWrites: bool, remoteWrites: bool)
    ensures 4 * |text| <= LocalLimit && localWrites ==>
      Save(t, sessionId, stored, Utf8Size(text), localWrites, remoteWrites).local == t.local[StateKey(sessionId) := Parsed(stored)]
    ensures |text| > LocalLimit ==> Save(t, sessionId, stored, Utf8Size(text), localWrites, remoteWrites).local == t.local
  {
    Utf8SizeBounds(text);
  }

  /** `saveState` (api/supabase-config.js:184-231) on the tiers, given the
      UTF-8 size of the serialized state and whether each write succeeds.
      Nothing it does throws. */
  function Save(t: Tiers, sessionId: string, stored: Stored, size: nat, localWrites: bool, remoteWrites: bool): Tiers {
    var local := if size <= LocalLimit && localWrites then t.local[StateKey(sessionId) := Parsed(stored)] else t.local;
    var remote := if t.client && remoteWrites then t.remote[sessionId := stored] else t.remote;
    Tiers(local, remote, t.client)
  }

  /** The two tiers are written independently: an oversized state or a
      failed local write does not stop the remote upsert, and an oversized
      state leaves the local tier as it was. */
  lemma SaveTiersIndependent(t: Tiers, sessionId: string, stored: Stored, size: nat, localWrites: bool, remoteWrites: bool)
    ensures Save(t, sessionId, stored, size, localWrites, remoteWrites).remote
         == Save(t, sessionId, stored, 0, true, remoteWrites).remote
    ensures t.client && remoteWrites ==> Save(t, sessionId, stored, size, localWrites, remoteWrites).remote == t.remote[sessionId := stored]
    ensures !(t.client && remoteWrites) ==> Save(t, sessionId, stored, size, localWrites, remoteWrites).remote == t.remote
    ensures size > LocalLimit || !localWrites ==> Save(t, sessionId, stored, size, localWrites, remoteWrites).local == t.local
    ensures Save(t, sessionId, stored, size, localWrites, remoteWrites).client == t.client
  {
  }

  /** `loadState` (api/supabase-config.js:236-279): the local tier first;
      an unparsable entry falls through to the remote tier; a remote error
      or a missing row gives null. `remoteFails` is whether the remote
      query reports an error or throws. */
  function Load(t: Tiers, sessionId: string, remoteFails: bool, enc: Encoders): Option<Stored> {
    var key := StateKey(sessionId);
    if key in t.local && t.local[key].Parsed? then Some(RestoreImages(t.local[key].state, enc))
    else if !t.client || remoteFails || sessionId !in t.remote then None
    else Some(RestoreImages(t.remote[sessionId], enc))
  }

  /** A state that fits is read back from the local tier, whatever the
      remote tier does. */
  lemma SaveThenLoadLocal(t: Tiers, sessionId: string, stored: Stored, size: nat, remoteWrites: bool, remoteFails: bool, enc: Encoders)
    requires size <= LocalLimit
    ensures Load(Save(t, sessionId, stored, size, true, remoteWrites), sessionId, remoteFails, enc) == Some(RestoreImages(stored, enc))
  {
  }

  /** A state too large for the local tier is read back from the remote
      tier when nothing is stored locally. */
  lemma SaveThenLoadRemote(t: Tiers, sessionId: string, stored: Stored, size: nat, enc: Encoders)
    requires size > LocalLimit && t.client && StateKey(sessionId) !in t.local
    ensures Load(Save(t, sessionId, stored, size, true, true), sessionId, false, enc) == Some(RestoreImages(stored, enc))
  {
  }

  /** The local tier keeps its old entry when a new state is too large for
      it, and loading prefers that entry: a reload shows the older state
      although the newer one reached the remote tier. */
  lemma StaleLocalCopyWins(t: Tiers, sessionId: string, older: Stored, newer: Stored, size: nat, remoteFails: bool, enc: Encoders)
    requires StateKey(sessionId) in t.local && t.local[StateKey(sessionId)] == Parsed(older)
    requires size > LocalLimit && t.client
    ensures Save(t, sessionId, newer, size, true, true).remote[sessionId] == newer
    ensures Load(Save(t, sessionId, newer, size, true, true), sessionId, remoteFails, enc) == Some(RestoreImages(older, enc))
  {
  }

  /** Loading finds nothing without a parsable local entry and a reachable
      remote row. */
  lemma LoadNull(t: Tiers, sessionId: string, remoteFails: bool, enc: Encoders)
    ensures Load(t, sessionId, remoteFails, enc).None? <==>
      !(StateKey(sessionId) in t.local && t.local[StateKey(sessionId)].Parsed?)
      && (!t.client || remoteFails || sessionId !in t.remote)
  {
  }

  // ---------------------------------------------------------------------
  // The session id.

  function DigitString(n: nat): (s: string)
    ensures |s| >= 1
  {
    var digit := ['0' + (n % 10) as char];
    if n < 10 then digit else DigitString(n / 10) + digit
  }

  /** `session_${Date.now()}_${suffix}` */
  function NewSessionId(now: nat, suffix: string): (id: string)
    ensures StartsWith(id, "session_") && id != ""
  {
    "session_" + DigitString(now) + "_" + suffix
  }

  /** The id `getSessionId` returns given the stored value. */
  function SessionIdFor(stored: Option<string>, now: nat, suffix: string): string {
    if Truthy(stored) then stored.value else NewSessionId(now, suffix)
  }

  /** Once an id is stored, every later call returns it, whatever the clock
      and random suffix. */
  lemma SessionIdIsStable(stored: Option<string>, now: nat, suffix: string, now': nat, suffix': string)
    ensures SessionIdFor(Some(SessionIdFor(stored, now, suffix)), now', suffix') == SessionIdFor(stored, now, suffix)
  {
  }

  // ---------------------------------------------------------------------
  // The imperative codec and store.

  /** The slot loop of `convertImagesToBase64` over one category. */
  method ConvertCategory(xs: seq<Field>, enc: Encoders) returns (ys: seq<Field>, flags: seq<bool>)
    ensures ys == ConvertSlots(xs, enc) && flags == SlotFlags(xs, enc)
  {
    ys := xs;
    flags := seq(|xs|, _ => false);
    var i := 0;
    while i < |xs|
      invariant 0 <= i <= |xs| && |ys| == |xs| && |flags| == |xs|
      invariant forall k :: 0 <= k < i ==> ys[k] == ConvertField(xs[k], true, enc).value && flags[k] == ConvertField(xs[k], true, enc).flag
      invariant forall k :: i <= k < |xs| ==> ys[k] == xs[k] && !flags[k]
    {
      var slot := ys[i];
      if Truthy(slot) && !StartsWith(slot.value, "data:") {
        var b := ImageUrlToBase64ForStorage(slot, true, enc);
        if Truthy(b) {
          ys := ys[i := b];
          flags := flags[i := true];
        } else {
          ys := ys[i := None];
        }
      }
      i := i + 1;
    }
  }

  /** The slot tables after the category loop has done the first `n`
      categories. */
  function ConvertedUpTo(o: Outfit, enc: Encoders, n: nat): Outfit {
    Outfit(if n > 0 then ConvertSlots(o.outer, enc) else o.outer,
           if n > 1 then ConvertSlots(o.inner, enc) else o.inner,
           if n > 2 then ConvertSlots(o.bottoms, enc) else o.bottoms)
  }

  /** The flag table after the first `n` categories. */
  function FlagsUpTo(o: Outfit, enc: Encoders, n: nat): Flags {
    Flags(if n > 0 then SlotFlags(o.outer, enc) else [],
          if n > 1 then SlotFlags(o.inner, enc) else [],
          if n > 2 then SlotFlags(o.bottoms, enc) else [])
  }

  lemma AnyFlagExtend(f: Flags, c: Category, fs: seq<bool>)
    requires GetFlags(f, c) == []
    ensures AnyFlag(SetFlags(f, c, fs)) <==> AnyFlag(f) || exists i :: 0 <= i < |fs| && fs[i]
  {
    var g := SetFlags(f, c, fs);
    if AnyFlag(g) {
      var d: Category, i :| 0 <= i < |GetFlags(g, d)| && GetFlags(g, d)[i];
      if d != c {
        assert GetFlags(f, d)[i];
      }
    }
    if AnyFlag(f) {
      var d: Category, i :| 0 <= i < |GetFlags(f, d)| && GetFlags(f, d)[i];
      assert GetFlags(g, d)[i];
    }
    if exists i :: 0 <= i < |fs| && fs[i] {
      var i :| 0 <= i < |fs| && fs[i];
      assert GetFlags(g, c)[i];
    }
  }

  /** `convertImagesToBase64` (api/supabase-config.js:284-351). */
  method ConvertImagesToBase64(state: SessionData, enc: Encoders) returns (s: Stored)
    ensures s == ConvertState(state, enc)
  {
    var b := ConvertField(state.base, false, enc);
    var c := ConvertField(state.composed, false, enc);
    var slots := state.slots;
    var flags := Flags([], [], []);
    var any := false;
    for ci := 0 to |Categories|
      invariant slots == ConvertedUpTo(state.slots, enc, ci)
      invariant flags == FlagsUpTo(state.slots, enc, ci)
      invariant any == AnyFlag(flags)
    {
      var cat := Categories[ci];
      var ys, fs := ConvertCategory(Get(slots, cat), enc);
      AnyFlagExtend(flags, cat, fs);
      slots := With(slots, cat, ys);
      flags := SetFlags(flags, cat, fs);
      if exists i :: 0 <= i < |fs| && fs[i] {
        any := true;
      }
    }
    s := Stored(state.(base := b.value, composed := c.value, slots := slots), b.flag, c.flag, if any then Some(flags) else None);
  }

  function SetFlags(f: Flags, c: Category, fs: seq<bool>): (r: Flags)
    ensures GetFlags(r, c) == fs && forall d :: d != c ==> GetFlags(r, d) == GetFlags(f, d)
  {
    match c
    case Outer => f.(outer := fs)
    case Inner => f.(inner := fs)
    case Bottoms => f.(bottoms := fs)
  }

  /** The inner loops of `restoreImagesFromBase64` over one category. */
  method RestoreCategory(xs: seq<Field>, flags: Option<seq<bool>>, enc: Encoders) returns (ys: seq<Field>)
    ensures flags.Some? ==> ys == DecodeFlagged(xs, flags.value, enc)
    ensures flags.None? ==> ys == DropHandles(xs)
  {
    ys := xs;
    var i := 0;
    while i < |xs|
      invariant 0 <= i <= |xs| && |ys| == |xs|
      invariant flags.Some? ==> forall k :: 0 <= k < i ==> ys[k] == DecodeFlagged(xs, flags.value, enc)[k]
      invariant flags.None? ==> forall k :: 0 <= k < i ==> ys[k] == DropHandles(xs)[k]
      invariant forall k :: i <= k < |xs| ==> ys[k] == xs[k]
    {
      match flags {
        case Some(fs) =>
          if i < |fs| && fs[i] && Truthy(ys[i]) {
            ys := ys[i := Base64ToImageUrl(ys[i].value, enc)];
          }
        case None =>
          if Truthy(ys[i]) && StartsWith(ys[i].value, "blob:") {
            ys := ys[i := None];
          }
      }
      i := i + 1;
    }
  }

  /** `restoreImagesFromBase64` (api/supabase-config.js:356-409). */
  method RestoreImagesFromBase64(state: Stored, enc: Encoders) returns (r: Stored)
    ensures r == RestoreImages(state, enc)
  {
    var b := RestoreField(state.data.base, state.baseFlag, enc);
    var c := RestoreField(state.data.composed, state.composedFlag, enc);
    var f := state.slotFlags;
    var outer := RestoreCategory(state.data.slots.outer, if f.Some? then Some(f.value.outer) else None, enc);
    var inner := RestoreCategory(state.data.slots.inner, if f.Some? then Some(f.value.inner) else None, enc);
    var bottoms := RestoreCategory(state.data.slots.bottoms, if f.Some? then Some(f.value.bottoms) else None, enc);
    r := Stored(state.data.(base := b.value, composed := c.value, slots := Outfit(outer, inner, bottoms)), b.flag, c.flag, None);
  }

  /** The browser's storage as the session sees it: the stored session id
      and the two tiers. */
  class Store {
    var sessionId: Option<string>
    var tiers: Tiers

    constructor(client: bool)
      ensures sessionId == None && tiers == Tiers(map[], map[], client)
    {
      sessionId := None;
      tiers := Tiers(map[], map[], client);
    }

    /** `getSessionId` (api/supabase-config.js:171-178): the stored id, or a
        new one that is stored. */
    method GetSessionId(now: nat, suffix: string) returns (id: string)
      modifies this
      ensures id == SessionIdFor(old(sessionId), now, suffix)
      ensures sessionId == Some(id) && Truthy(sessionId) && tiers == old(tiers)
    {
      if Truthy(sessionId) {
        id := sessionId.value;
      } else {
        id := NewSessionId(now, suffix);
        sessionId := Some(id);
      }
    }

    /** `saveState` (api/supabase-config.js:184-231): the converted state goes
        to the local tier when its serialized text fits and the write
        succeeds, and to the remote tier when a client exists and the upsert
        succeeds. `serialize` is `JSON.stringify`; the size tested is the
        UTF-8 length of its text. */
    method SaveState(id: string, state: SessionData, enc: Encoders, serialize: Stored -> string, localWrites: bool, remoteWrites: bool)
      modifies this
      ensures tiers == Save(old(tiers), id, ConvertState(state, enc), Utf8Size(serialize(ConvertState(state, enc))), localWrites, remoteWrites)
      ensures sessionId == old(sessionId)
    {
      var converted := ConvertImagesToBase64(state, enc);
      var local := tiers.local;
      if Utf8Size(serialize(converted)) <= LocalLimit && localWrites {
        local := local[StateKey(id) := Parsed(converted)];
      }
      var remote := tiers.remote;
      if tiers.client && remoteWrites {
        remote := remote[id := converted];
      }
      tiers := Tiers(local, remote, tiers.client);
    }

    /** `loadState` (api/supabase-config.js:236-279). */
    method LoadState(id: string, remoteFails: bool, enc: Encoders) returns (r: Option<Stored>)
      ensures r == Load(tiers, id, remoteFails, enc)
    {
      var key := StateKey(id);
      if key in tiers.local && tiers.local[key].Parsed? {
        var s := RestoreImagesFromBase64(tiers.local[key].state, enc);
        return Some(s);
      }
      if !tiers.client || remoteFails || id !in tiers.remote {
        return None;
      }
      var s := RestoreImagesFromBase64(tiers.remote[id], enc);
      return Some(s);
    }
  }
}
