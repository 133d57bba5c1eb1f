/** Marker hit boxes and the click index of the main map. Each marker gets a
    20x20 box centred on its screen pixel; a box wholly off screen is
    culled, the rest are clamped to the picture and filed under the clamped
    rectangle. A click answers every distinct marker filed under a rectangle
    that contains it. */
module Overlay {

  import opened Common
  import opened Geometry
  import opened Listings

  const HitSize: int := 20

  /** A listing on the map; `id` stands for the object's identity, which is
      what duplicate suppression compares. */
  datatype Marker = Marker(id: nat, property: Property)

  /** A marker at its rounded screen pixel. */
  datatype PlacedMarker = PlacedMarker(marker: Marker, at: Point)

  /** `new Rectangle(imgX - 10, imgY - 10, 20, 20)`. */
  function HitBox(at: Point): Rect {
    Rect(at.x - HitSize / 2, at.y - HitSize / 2, HitSize, HitSize)
  }

  function Screen(width: int, height: int): Rect {
    Rect(0, 0, width, height)
  }

  /** The culling test: the box lies entirely left of, right of, above or
      below the picture. */
  predicate OffScreen(box: Rect, width: int, height: int) {
    box.Right() < 0 || box.Left() > width || box.Bottom() < 0 || box.Top() > height
  }

  /** The rectangle a marker is filed under, if any: culled boxes and boxes
      whose intersection with the picture is `Rectangle.Empty` are not filed.
      The only box that survives culling yet clamps to `Empty` is the one
      touching the picture's top-left corner from outside. */
  function ClampedBox(at: Point, width: int, height: int): (r: Option<Rect>)
    requires width > 0 && height > 0
    ensures r.None? <==> OffScreen(HitBox(at), width, height) || at == Point(-10, -10)
    ensures r.Some? ==> r.value.Within(Screen(width, height)) && r.value.Within(HitBox(at))
    ensures r.Some? ==> forall p :: r.value.Contains(p) <==> Screen(width, height).Contains(p) && HitBox(at).Contains(p)
  {
    var box := HitBox(at);
    if OffScreen(box, width, height) then None
    else
      var clamped := Intersect(Screen(width, height), box);
      if clamped.IsEmpty() then None else Some(clamped)
  }

  /** One dictionary entry: a clamped rectangle and the markers filed under
      it, in insertion order. */
  datatype HitRegion = HitRegion(rect: Rect, ids: seq<nat>)

  /** `Dictionary<Rectangle, List<Property>>`; it is only ever added to, so
      it enumerates in insertion order. */
  type HitIndex = seq<HitRegion>

  predicate DistinctKeys(index: HitIndex) {
    forall i, j :: 0 <= i < j < |index| ==> index[i].rect != index[j].rect
  }

  predicate HasKey(index: HitIndex, r: Rect) {
    exists k :: 0 <= k < |index| && index[k].rect == r
  }

  /** Where `r` is stored: the first region with that key. */
  function KeyPosition(index: HitIndex, r: Rect): (k: Option<nat>)
    ensures k.None? <==> !HasKey(index, r)
    ensures k.Some? ==> k.value < |index| && index[k.value].rect == r
    ensures k.Some? ==> forall j :: 0 <= j < k.value ==> index[j].rect != r
  {
    if |index| == 0 then None
    else if index[0].rect == r then Some(0)
    else
      assert forall j :: 1 <= j < |index| ==> index[1..][j - 1] == index[j];
      match KeyPosition(index[1..], r)
      case None => None
      case Some(k) => Some(k + 1)
  }

  /** The first region keyed `r` is where `KeyPosition` finds it. */
  lemma KeyPositionIsFirst(index: HitIndex, r: Rect, k: nat)
    requires k < |index| && index[k].rect == r
    requires forall j :: 0 <= j < k ==> index[j].rect != r
    ensures KeyPosition(index, r) == Some(k)
  {
  }

  /** Indexes with the same keys in the same order store every key at the
      same position. */
  lemma KeyPositionSameKeys(a: HitIndex, b: HitIndex, r: Rect)
    requires |a| == |b| && forall k :: 0 <= k < |a| ==> a[k].rect == b[k].rect
    ensures KeyPosition(a, r) == KeyPosition(b, r)
  {
    match KeyPosition(a, r)
    case Some(k) => KeyPositionIsFirst(b, r, k);
    case None => assert !HasKey(b, r);
  }

  /** The list stored under `r`, or the empty list when `r` is not a key. */
  function Lookup(index: HitIndex, r: Rect): (ids: seq<nat>)
    ensures !HasKey(index, r) ==> ids == []
    ensures DistinctKeys(index) ==> forall k :: 0 <= k < |index| && index[k].rect == r ==> ids == index[k].ids
  {
    match KeyPosition(index, r)
    case None => []
    case Some(k) => index[k].ids
  }

  /** `TryGetValue`, create the list if missing, then `Add` unless the list
      already `Contains` the marker. */
  function Insert(index: HitIndex, r: Rect, id: nat): (index': HitIndex)
    ensures |index'| == |index| + (if HasKey(index, r) then 0 else 1)
    ensures forall k :: 0 <= k < |index| ==> index'[k].rect == index[k].rect
    ensures !HasKey(index, r) ==> index'[|index|].rect == r
    ensures DistinctKeys(index) ==> DistinctKeys(index')
    ensures Lookup(index', r) == (if id in Lookup(index, r) then Lookup(index, r) else Lookup(index, r) + [id])
    ensures forall r' :: r' != r ==> Lookup(index', r') == Lookup(index, r')
    ensures (forall k :: 0 <= k < |index| ==> |index[k].ids| > 0) ==> forall k :: 0 <= k < |index'| ==> |index'[k].ids| > 0
  {
    match KeyPosition(index, r)
    case None =>
      var index' := index + [HitRegion(r, [id])];
      AppendFacts(index, r, [id]);
      index'
    case Some(k) =>
      var ids := index[k].ids;
      var index' := index[k := HitRegion(r, if id in ids then ids else ids + [id])];
      ReplaceFacts(index, k, HitRegion(r, if id in ids then ids else ids + [id]));
      index'
  }

  /** Helper for `Insert`: what appending a region under a new key does to
      lookups and key distinctness. */
  lemma AppendFacts(index: HitIndex, r: Rect, ids: seq<nat>)
    requires !HasKey(index, r)
    ensures Lookup(index + [HitRegion(r, ids)], r) == ids
    ensures forall r' :: r' != r ==> Lookup(index + [HitRegion(r, ids)], r') == Lookup(index, r')
    ensures DistinctKeys(index) ==> DistinctKeys(index + [HitRegion(r, ids)])
  {
    var index' := index + [HitRegion(r, ids)];
    assert index'[..|index|] == index;
    InsertNewKey(index, index', r);
  }

  /** Helper for `Insert`: what replacing the region stored under a key does
      to lookups and key distinctness. */
  lemma ReplaceFacts(index: HitIndex, k: nat, hr: HitRegion)
    requires k < |index| && index[k].rect == hr.rect && KeyPosition(index, hr.rect) == Some(k)
    ensures Lookup(index[k := hr], hr.rect) == hr.ids
    ensures forall r' :: r' != hr.rect ==> Lookup(index[k := hr], r') == Lookup(index, r')
    ensures DistinctKeys(index) ==> DistinctKeys(index[k := hr])
  {
    var index' := index[k := hr];
    forall r' ensures KeyPosition(index', r') == KeyPosition(index, r') {
      KeyPositionSameKeys(index, index', r');
    }
  }

  /** Helper for `Insert`: appending a region under a new key leaves every
      other key where it was and files the new key last. */
  lemma InsertNewKey(index: HitIndex, index': HitIndex, r: Rect)
    requires !HasKey(index, r) && |index'| == |index| + 1 && index'[..|index|] == index && index'[|index|].rect == r
    ensures KeyPosition(index', r) == Some(|index|)
    ensures forall r' :: r' != r ==> KeyPosition(index', r') == KeyPosition(index, r')
  {
    assert forall j :: 0 <= j < |index| ==> index'[j] == index[j];
    KeyPositionIsFirst(index', r, |index|);
    forall r' | r' != r ensures KeyPosition(index', r') == KeyPosition(index, r') {
      AppendKeepsPosition(index, index', r, r');
    }
  }

  /** Appending a region keyed `r` does not move any other key. */
  lemma AppendKeepsPosition(index: HitIndex, index': HitIndex, r: Rect, r': Rect)
    requires |index'| == |index| + 1 && index'[|index|].rect == r && r' != r
    requires forall j :: 0 <= j < |index| ==> index'[j] == index[j]
    ensures KeyPosition(index', r') == KeyPosition(index, r')
  {
    match KeyPosition(index, r')
    case Some(k) => KeyPositionIsFirst(index', r', k);
    case None => assert !HasKey(index', r');
  }

  /** The markers with clamped box `r`, in the order they were drawn. */
  function IdsWithBox(ms: seq<PlacedMarker>, width: int, height: int, r: Rect): (ids: seq<nat>)
    requires width > 0 && height > 0
    ensures forall id :: id in ids <==>
      exists i :: 0 <= i < |ms| && ms[i].marker.id == id && ClampedBox(ms[i].at, width, height) == Some(r)
    decreases |ms|
  {
    if |ms| == 0 then []
    else
      var n := |ms| - 1;
      var init := IdsWithBox(ms[..n], width, height, r);
      assert forall i :: 0 <= i < n ==> ms[..n][i] == ms[i];
      if ClampedBox(ms[n].at, width, height) == Some(r) then init + [ms[n].marker.id] else init
  }

  /** The marker loop of the renderer, starting from the cleared index. */
  function BuildIndex(ms: seq<PlacedMarker>, width: int, height: int): (index: HitIndex)
    requires width > 0 && height > 0
    ensures |ms| == 0 ==> index == []
    ensures |index| <= |ms|
    decreases |ms|
  {
    if |ms| == 0 then []
    else
      var index := BuildIndex(ms[..|ms| - 1], width, height);
      var m := ms[|ms| - 1];
      match ClampedBox(m.at, width, height)
      case None => index
      case Some(r) => Insert(index, r, m.marker.id)
  }

  /** Every region of a built index has distinct keys and a non-empty list. */
  predicate WellFormed(index: HitIndex) {
    DistinctKeys(index) && forall k :: 0 <= k < |index| ==> |index[k].ids| > 0
  }

  lemma {:induction false} BuildIndexWellFormed(ms: seq<PlacedMarker>, width: int, height: int)
    requires width > 0 && height > 0
    ensures WellFormed(BuildIndex(ms, width, height))
    decreases |ms|
  {
    if |ms| > 0 {
      BuildIndexWellFormed(ms[..|ms| - 1], width, height);
    }
  }

  /** After a render, the list under every rectangle `r` holds exactly the
      markers of this render whose clamped box is `r`, each once, in the
      order they were first drawn. */
  lemma {:induction false} BuildIndexLookup(ms: seq<PlacedMarker>, width: int, height: int, r: Rect)
    requires width > 0 && height > 0
    ensures Lookup(BuildIndex(ms, width, height), r) == Distinct(IdsWithBox(ms, width, height, r))
    decreases |ms|
  {
    if |ms| > 0 {
      BuildIndexLookup(ms[..|ms| - 1], width, height, r);
      BuildIndexLookupStep(ms, width, height, r);
    }
  }

  /** Filing the last marker extends the list under `r` exactly when that
      marker clamps to `r`. */
  lemma BuildIndexLookupStep(ms: seq<PlacedMarker>, width: int, height: int, r: Rect)
    requires width > 0 && height > 0 && |ms| > 0
    requires Lookup(BuildIndex(ms[..|ms| - 1], width, height), r) ==
             Distinct(IdsWithBox(ms[..|ms| - 1], width, height, r))
    ensures Lookup(BuildIndex(ms, width, height), r) == Distinct(IdsWithBox(ms, width, height, r))
  {
    var n := |ms| - 1;
    var s := IdsWithBox(ms[..n], width, height, r);
    var m := ms[n];
    if ClampedBox(m.at, width, height) == Some(r) {
      var s' := s + [m.marker.id];
      assert IdsWithBox(ms, width, height, r) == s';
      assert s'[..|s'| - 1] == s;
    } else {
      assert IdsWithBox(ms, width, height, r) == s;
    }
  }

  /** A render's index is well formed, its keys are exactly the clamped boxes
      of this render's markers, and the list under each key is the distinct
      markers filed there, in first-drawn order. */
  lemma BuildIndexExact(ms: seq<PlacedMarker>, width: int, height: int, r: Rect)
    requires width > 0 && height > 0
    ensures WellFormed(BuildIndex(ms, width, height))
    ensures Lookup(BuildIndex(ms, width, height), r) == Distinct(IdsWithBox(ms, width, height, r))
    ensures HasKey(BuildIndex(ms, width, height), r) <==> |IdsWithBox(ms, width, height, r)| > 0
  {
    var index := BuildIndex(ms, width, height);
    BuildIndexWellFormed(ms, width, height);
    BuildIndexLookup(ms, width, height, r);
    var s := IdsWithBox(ms, width, height, r);
    if |s| > 0 {
      assert s[0] in Distinct(s);
    }
    if HasKey(index, r) {
      var k :| 0 <= k < |index| && index[k].rect == r;
      assert index[k].ids[0] in Distinct(s);
    }
  }

  /** What the click loop gathers: the lists of every rectangle containing
      the click, concatenated in enumeration order. */
  function Matches(index: HitIndex, click: Point): (ids: seq<nat>)
    ensures forall id :: id in ids <==>
      exists k :: 0 <= k < |index| && index[k].rect.Contains(click) && id in index[k].ids
  {
    if |index| == 0 then []
    else
      assert forall k :: 1 <= k < |index| ==> index[1..][k - 1] == index[k];
      (if index[0].rect.Contains(click) then index[0].ids else []) + Matches(index[1..], click)
  }

  /** `directMatches.Distinct()`: each marker whose rectangle contains the
      click, once, in the order first met. */
  function Query(index: HitIndex, click: Point): (ids: seq<nat>)
    ensures NoDup(ids)
    ensures forall id :: id in ids <==> id in Matches(index, click)
    ensures forall id :: id in ids <==>
      exists k :: 0 <= k < |index| && index[k].rect.Contains(click) && id in index[k].ids
    ensures forall i, j :: 0 <= i < j < |ids| ==>
      FirstIndex(Matches(index, click), ids[i]) < FirstIndex(Matches(index, click), ids[j])
  {
    Distinct(Matches(index, click))
  }

  /** End to end: a click on a freshly built index answers exactly the
      markers of this render whose clamped box contains the click. */
  lemma HitTestExact(ms: seq<PlacedMarker>, width: int, height: int, click: Point, id: nat)
    requires width > 0 && height > 0
    ensures id in Query(BuildIndex(ms, width, height), click) <==>
      exists i :: 0 <= i < |ms| && ms[i].marker.id == id &&
        ClampedBox(ms[i].at, width, height).Some? && ClampedBox(ms[i].at, width, height).value.Contains(click)
  {
    var index := BuildIndex(ms, width, height);
    if id in Query(index, click) {
      var k :| 0 <= k < |index| && index[k].rect.Contains(click) && id in index[k].ids;
      var r := index[k].rect;
      BuildIndexExact(ms, width, height, r);
      assert id in Lookup(index, r);
      assert id in IdsWithBox(ms, width, height, r);
    }
    if exists i :: 0 <= i < |ms| && ms[i].marker.id == id &&
        ClampedBox(ms[i].at, width, height).Some? && ClampedBox(ms[i].at, width, height).value.Contains(click) {
      var i :| 0 <= i < |ms| && ms[i].marker.id == id &&
        ClampedBox(ms[i].at, width, height).Some? && ClampedBox(ms[i].at, width, height).value.Contains(click);
      var r := ClampedBox(ms[i].at, width, height).value;
      BuildIndexExact(ms, width, height, r);
      assert id in IdsWithBox(ms, width, height, r);
      assert id in Lookup(index, r);
      var k :| 0 <= k < |index| && index[k].rect == r;
      assert id in index[k].ids;
    }
  }
}
