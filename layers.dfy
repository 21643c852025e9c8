/** The layered garment tables of a session (app.js:16-38): three categories
    with fixed capacities, the order in which the detector visits them and
    the order in which garments are worn, and the merge of the user's slots
    over the detected baseline. */
module Layers {
  import opened Values

  datatype Category = Outer | Inner | Bottoms

  /** The categories in the order every loop of the code visits them. */
  const Categories: seq<Category> := [Outer, Inner, Bottoms]

  /** The capacity check of replaceSlot (app.js:275). */
  function Capacity(c: Category): nat {
    match c
    case Outer => 2
    case Inner => 3
    case Bottoms => 2
  }

  /** The property name under which the category is stored. */
  function CategoryName(c: Category): string {
    match c
    case Outer => "outer"
    case Inner => "inner"
    case Bottoms => "bottoms"
  }

  /** Reading a category name supplied by a caller; any other name is not
      one of the three tables. */
  function ParseCategory(name: string): (r: Option<Category>)
    ensures r.Some? ==> CategoryName(r.value) == name
    ensures r.None? ==> forall c: Category :: CategoryName(c) != name
  {
    if name == "outer" then Some(Outer)
    else if name == "inner" then Some(Inner)
    else if name == "bottoms" then Some(Bottoms)
    else None
  }

  /** One position in the tables. */
  datatype Slot = Slot(category: Category, index: nat)

  predicate InCapacity(s: Slot) {
    s.index < Capacity(s.category)
  }

  /** A table `{ outer: [...], inner: [...], bottoms: [...] }`. An entry is
      an image URL or an empty field. */
  datatype Outfit = Outfit(outer: seq<Field>, inner: seq<Field>, bottoms: seq<Field>)

  function Get(o: Outfit, c: Category): seq<Field> {
    match c
    case Outer => o.outer
    case Inner => o.inner
    case Bottoms => o.bottoms
  }

  function With(o: Outfit, c: Category, s: seq<Field>): (r: Outfit)
    ensures Get(r, c) == s
    ensures forall d :: d != c ==> Get(r, d) == Get(o, d)
  {
    match c
    case Outer => o.(outer := s)
    case Inner => o.(inner := s)
    case Bottoms => o.(bottoms := s)
  }

  /** `[null, null]`, `[null, null, null]`, `[null, null]` */
  const EmptyOutfit: Outfit := Outfit([None, None], [None, None, None], [None, None])

  /** Every category holds exactly its capacity. */
  predicate WellShaped(o: Outfit) {
    |o.outer| == 2 && |o.inner| == 3 && |o.bottoms| == 2
  }

  /** `array[i]`: an index outside the array reads `undefined`. */
  function At(s: seq<Field>, i: int): (r: Field)
    ensures 0 <= i < |s| ==> r == s[i]
    ensures !(0 <= i < |s|) ==> r == None
  {
    if 0 <= i < |s| then s[i] else None
  }

  function Empties(n: nat): (r: seq<Field>)
    ensures |r| == n && forall k :: 0 <= k < n ==> r[k] == None
  {
    if n == 0 then [] else Empties(n - 1) + [None]
  }

  /** `array[i] = v`: a negative index sets a property that is not an element;
      an index past the end grows the array with empty entries. */
  function Put(s: seq<Field>, i: int, v: Field): (r: seq<Field>)
    ensures 0 <= i ==> |r| == if i < |s| then |s| else i + 1
    ensures i < 0 ==> r == s
    ensures 0 <= i ==> At(r, i) == v
    ensures forall j :: 0 <= j < |s| && j != i ==> r[j] == s[j]
    ensures forall j :: |s| <= j < |r| && j != i ==> r[j] == None
  {
    if i < 0 then s
    else if i < |s| then s[i := v]
    else s + Empties(i - |s|) + [v]
  }

  /** `table[c][i]` */
  function SlotAt(o: Outfit, s: Slot): Field {
    At(Get(o, s.category), s.index)
  }

  /** `table[c][i] = v` */
  function Write(o: Outfit, c: Category, i: int, v: Field): (r: Outfit)
    ensures Get(r, c) == Put(Get(o, c), i, v)
    ensures forall d :: d != c ==> Get(r, d) == Get(o, d)
  {
    With(o, c, Put(Get(o, c), i, v))
  }

  /** A write inside the capacity of a well-shaped table changes exactly that
      entry and keeps the shape. */
  lemma WriteInCapacity(o: Outfit, s: Slot, v: Field)
    requires WellShaped(o) && InCapacity(s)
    ensures WellShaped(Write(o, s.category, s.index, v))
    ensures SlotAt(Write(o, s.category, s.index, v), s) == v
    ensures forall t :: t != s ==> SlotAt(Write(o, s.category, s.index, v), t) == SlotAt(o, t)
  {
  }

  /** Any write at a non-negative index, whatever the table's shape, sets
      that slot and no other: positions the write adds read empty, as they
      did before. */
  lemma WriteSlots(o: Outfit, s: Slot, v: Field)
    ensures SlotAt(Write(o, s.category, s.index, v), s) == v
    ensures forall t :: t != s ==> SlotAt(Write(o, s.category, s.index, v), t) == SlotAt(o, t)
  {
    var r := Write(o, s.category, s.index, v);
    forall t | t != s
      ensures SlotAt(r, t) == SlotAt(o, t)
    {
      if t.category == s.category {
        var xs := Get(o, s.category);
        var ys := Get(r, s.category);
        if t.index >= |xs| && t.index < |ys| {
          assert ys[t.index] == None;
        }
      }
    }
  }

  /** `every(slot => !slot)` over the three categories (app.js:335-337). */
  predicate AllEmpty(o: Outfit) {
    forall c: Category, i :: 0 <= i < |Get(o, c)| ==> !Truthy(Get(o, c)[i])
  }

  lemma AllEmptyMeansNoSlot(o: Outfit)
    ensures AllEmpty(o) <==> forall s: Slot :: !Truthy(SlotAt(o, s))
  {
    if !AllEmpty(o) {
      var c: Category, i :| 0 <= i < |Get(o, c)| && Truthy(Get(o, c)[i]);
      assert SlotAt(o, Slot(c, i)) == Get(o, c)[i];
    }
  }

  /** The six positions the detection pipeline analyses, in its order
      (app.js:183-190): heavy outer, light outer, mid layer, main top, base
      inner, bottoms. */
  const DetectionOrder: seq<Slot> :=
    [Slot(Outer, 0), Slot(Outer, 1), Slot(Inner, 0), Slot(Inner, 1), Slot(Inner, 2), Slot(Bottoms, 0)]

  /** The wearing order, innermost first (app.js:448-456). */
  const WearingOrder: seq<Slot> :=
    [Slot(Bottoms, 0), Slot(Bottoms, 1), Slot(Inner, 2), Slot(Inner, 1),
     Slot(Inner, 0), Slot(Outer, 1), Slot(Outer, 0)]

  /** The layer number of a position: its place in the wearing order, 1..7. */
  function LayerIndexOf(s: Slot): (n: nat)
    requires InCapacity(s)
    ensures 1 <= n <= 7 && WearingOrder[n - 1] == s
  {
    match s.category
    case Bottoms => s.index + 1
    case Inner => 5 - s.index
    case Outer => 7 - s.index
  }

  /** The wearing order lists every position of the tables exactly once: the
      layer numbers form a bijection between the seven positions and 1..7. */
  lemma WearingOrderIsBijection()
    ensures |WearingOrder| == 7
    ensures forall s :: s in WearingOrder <==> InCapacity(s)
    ensures forall j, k :: 0 <= j < k < 7 ==> WearingOrder[j] != WearingOrder[k]
    ensures forall s, t :: InCapacity(s) && InCapacity(t) && s != t ==> LayerIndexOf(s) != LayerIndexOf(t)
  {
    forall s | InCapacity(s) ensures s in WearingOrder {
      assert WearingOrder[LayerIndexOf(s) - 1] == s;
    }
  }

  /** The detection pipeline visits six distinct positions and never the
      second bottoms slot. */
  lemma DetectionOrderCoverage()
    ensures |DetectionOrder| == 6
    ensures forall j, k :: 0 <= j < k < 6 ==> DetectionOrder[j] != DetectionOrder[k]
    ensures forall s :: s in DetectionOrder <==> InCapacity(s) && s != Slot(Bottoms, 1)
  {
  }

  /** `slots[c].map((slot, i) => slot || initial[c][i])` */
  function MergeSeq(user: seq<Field>, baseline: seq<Field>): (r: seq<Field>)
    ensures |r| == |user|
  {
    seq(|user|, i requires 0 <= i < |user| => if Truthy(user[i]) then user[i] else At(baseline, i))
  }

  /** The effective outfit of a try-on (app.js:387-397). */
  function Merge(user: Outfit, baseline: Outfit): (r: Outfit)
    ensures forall c :: |Get(r, c)| == |Get(user, c)|
  {
    Outfit(MergeSeq(user.outer, baseline.outer), MergeSeq(user.inner, baseline.inner),
           MergeSeq(user.bottoms, baseline.bottoms))
  }

  /** The merge law: a set user slot wins whatever the baseline holds; an
      empty one defers to the baseline. */
  lemma MergeLaw(user: Outfit, baseline: Outfit, s: Slot)
    requires s.index < |Get(user, s.category)|
    ensures Truthy(SlotAt(user, s)) ==> SlotAt(Merge(user, baseline), s) == SlotAt(user, s)
    ensures !Truthy(SlotAt(user, s)) ==> SlotAt(Merge(user, baseline), s) == SlotAt(baseline, s)
  {
  }

  /** Merging is idempotent: the baseline adds nothing the second time. */
  lemma MergeIdempotent(user: Outfit, baseline: Outfit)
    ensures Merge(Merge(user, baseline), baseline) == Merge(user, baseline)
  {
    var m := Merge(user, baseline);
    assert MergeSeq(m.outer, baseline.outer) == m.outer;
    assert MergeSeq(m.inner, baseline.inner) == m.inner;
    assert MergeSeq(m.bottoms, baseline.bottoms) == m.bottoms;
  }

  /** With no user overrides, a well-shaped baseline is used as it is; with
      an all-empty baseline, the user's set slots are used as they are. */
  lemma MergeUnits(user: Outfit, baseline: Outfit)
    requires WellShaped(user) && WellShaped(baseline)
    ensures AllEmpty(user) ==> forall s :: InCapacity(s) ==> SlotAt(Merge(user, baseline), s) == SlotAt(baseline, s)
    ensures AllEmpty(baseline) ==> forall s :: InCapacity(s) && Truthy(SlotAt(user, s)) ==> SlotAt(Merge(user, baseline), s) == SlotAt(user, s)
    ensures AllEmpty(baseline) ==> forall s :: InCapacity(s) ==> (Truthy(SlotAt(Merge(user, baseline), s)) <==> Truthy(SlotAt(user, s)))
  {
    forall s | InCapacity(s) ensures AllEmpty(user) ==> SlotAt(Merge(user, baseline), s) == SlotAt(baseline, s) {
      MergeLaw(user, baseline, s);
    }
    forall s | InCapacity(s)
      ensures AllEmpty(baseline) ==> (Truthy(SlotAt(Merge(user, baseline), s)) <==> Truthy(SlotAt(user, s)))
    {
      MergeLaw(user, baseline, s);
    }
  }
}
