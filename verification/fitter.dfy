/** The viewport fitter of the main map (`ShowAgencyOnMap`): project every
    listing into normalised Mercator space, take the bounding box, choose the
    largest zoom at which the box fits the picture, and centre on the box.

    `mercY` (latitude to normalised Mercator row, including the clamp of
    `sin(lat)` to +-0.9999), `invLat` (its inverse) and `log2` are
    transcendental and are taken as parameters; properties that depend on
    `log2` state what they assume of it. */
module Fitter {

  import opened Common
  import opened Tiles
  import opened Projection
  import opened Listings

  /** The floor on each span, which keeps the zoom formula finite. */
  const MinSpan: real := 0.000000001

  /** Boxes narrower than this on both axes get two extra zoom levels. */
  const TightSpan: real := 0.000001

  const Boost: int := 2

  datatype NormPoint = NormPoint(x: real, y: real)

  /** `[minX, maxX] x [minY, maxY]` in normalised Mercator space. */
  datatype Box = Box(minX: real, maxX: real, minY: real, maxY: real)

  predicate InBox(b: Box, p: NormPoint) {
    b.minX <= p.x <= b.maxX && b.minY <= p.y <= b.maxY
  }

  /** `inner` lies inside `outer`. */
  predicate BoxWithin(inner: Box, outer: Box) {
    outer.minX <= inner.minX && inner.maxX <= outer.maxX &&
    outer.minY <= inner.minY && inner.maxY <= outer.maxY
  }

  /** A listing's position in normalised Mercator space. */
  function Normalize(p: Property, mercY: real -> real): NormPoint {
    NormPoint(NormX(p.longitude), mercY(p.latitude))
  }

  function NormalizeAll(ps: seq<Property>, mercY: real -> real): (pts: seq<NormPoint>)
    ensures |pts| == |ps|
    ensures forall i :: 0 <= i < |ps| ==> pts[i] == Normalize(ps[i], mercY)
  {
    seq(|ps|, i requires 0 <= i < |ps| => Normalize(ps[i], mercY))
  }

  /** The running min/max of the loop; starting from infinities, the first
      point sets all four bounds. */
  function Bounds(pts: seq<NormPoint>): (b: Box)
    requires |pts| > 0
    ensures forall i :: 0 <= i < |pts| ==> InBox(b, pts[i])
    ensures exists i :: 0 <= i < |pts| && pts[i].x == b.minX
    ensures exists i :: 0 <= i < |pts| && pts[i].x == b.maxX
    ensures exists i :: 0 <= i < |pts| && pts[i].y == b.minY
    ensures exists i :: 0 <= i < |pts| && pts[i].y == b.maxY
    decreases |pts|
  {
    if |pts| == 1 then Box(pts[0].x, pts[0].x, pts[0].y, pts[0].y)
    else
      var n := |pts| - 1;
      var b := Bounds(pts[..n]);
      assert forall i :: 0 <= i < n ==> pts[..n][i] == pts[i];
      var p := pts[n];
      Box(MinReal(b.minX, p.x), MaxReal(b.maxX, p.x), MinReal(b.minY, p.y), MaxReal(b.maxY, p.y))
  }

  /** `Math.Max(1e-9, maxX - minX)`. */
  function SpanX(b: Box): (s: real)
    ensures s >= MinSpan && s >= b.maxX - b.minX
  {
    MaxReal(MinSpan, b.maxX - b.minX)
  }

  function SpanY(b: Box): (s: real)
    ensures s >= MinSpan && s >= b.maxY - b.minY
  {
    MaxReal(MinSpan, b.maxY - b.minY)
  }

  /** Both raw spans are below `1e-6`: one point or a tight cluster. */
  predicate Tight(b: Box) {
    b.maxX - b.minX < TightSpan && b.maxY - b.minY < TightSpan
  }

  /** `Math.Min(zoomX, zoomY)` with `zoomX = log2(width / (256 * spanX))`;
      `None` when it is infinite or NaN, which happens exactly when a
      picture dimension is not positive (`log2(0)` is minus infinity,
      `log2` of a negative number is NaN). */
  function ContinuousZoom(b: Box, width: int, height: int, log2: real -> real): (c: Option<real>)
    ensures c.None? <==> width <= 0 || height <= 0
  {
    if width <= 0 || height <= 0 then None
    else Some(MinReal(log2(Ratio(width, SpanX(b))), log2(Ratio(height, SpanY(b)))))
  }

  /** The continuous zoom is the smaller of the two axis zooms: at most
      each, and equal to one of them. */
  lemma ContinuousZoomIsMin(b: Box, width: int, height: int, log2: real -> real)
    requires width > 0 && height > 0
    ensures var c := ContinuousZoom(b, width, height, log2).value;
            c <= log2(Ratio(width, SpanX(b))) && c <= log2(Ratio(height, SpanY(b))) &&
            (c == log2(Ratio(width, SpanX(b))) || c == log2(Ratio(height, SpanY(b))))
  {
  }

  /** `width / (tileSize * span)`: how many times the span, drawn one tile
      wide, fits across the picture. */
  function Ratio(w: int, span: real): (a: real)
    requires span > 0.0
    ensures w > 0 ==> a > 0.0
  {
    w as real / (TileSize as real * span)
  }

  function ClampZoom(z: int): (c: int)
    ensures MinZoom <= c <= MaxZoom
    ensures MinZoom <= z <= MaxZoom ==> c == z
    ensures z > MaxZoom ==> c == MaxZoom
    ensures z < MinZoom ==> c == MinZoom
  {
    Max(MinZoom, Min(MaxZoom, z))
  }

  /** The zoom before the tight-cluster boost: the floor of the continuous
      zoom, the maximum zoom when that is not finite, clamped to [0, 19]. */
  function FitZoom(b: Box, width: int, height: int, log2: real -> real): (z: int)
    ensures MinZoom <= z <= MaxZoom
    ensures ContinuousZoom(b, width, height, log2).None? ==> z == MaxZoom
    ensures ContinuousZoom(b, width, height, log2).Some? ==>
      var c := ContinuousZoom(b, width, height, log2).value;
      (c >= MaxZoom as real ==> z == MaxZoom) &&
      (c < MinZoom as real ==> z == MinZoom) &&
      (MinZoom as real <= c < MaxZoom as real ==> z == c.Floor)
  {
    match ContinuousZoom(b, width, height, log2)
    case None => MaxZoom
    case Some(c) => ClampZoom(c.Floor)
  }

  /** The zoom `ShowAgencyOnMap` renders at: the fitted zoom, raised by two
      (never past 19) for a tight box. */
  function ChosenZoom(b: Box, width: int, height: int, log2: real -> real): (z: int)
    ensures MinZoom <= z <= MaxZoom
    ensures FitZoom(b, width, height, log2) <= z <= FitZoom(b, width, height, log2) + Boost
    ensures z != FitZoom(b, width, height, log2) ==> Tight(b)
    ensures Tight(b) ==> z == MaxZoom || z == FitZoom(b, width, height, log2) + Boost
  {
    var f := FitZoom(b, width, height, log2);
    if Tight(b) then Min(MaxZoom, f + Boost) else f
  }

  /** The centre of the box. */
  function Center(b: Box): (c: NormPoint)
    requires b.minX <= b.maxX && b.minY <= b.maxY
    ensures InBox(b, c)
    ensures c.x - b.minX == b.maxX - c.x && c.y - b.minY == b.maxY - c.y
  {
    NormPoint((b.minX + b.maxX) / 2.0, (b.minY + b.maxY) / 2.0)
  }

  /** `log2` is non-decreasing on positive reals. */
  ghost predicate Log2Monotonic(log2: real -> real) {
    forall a: real, c: real :: 0.0 < a <= c ==> log2(a) <= log2(c)
  }

  /** `log2` agrees with powers of two: a whole number `n` is at most
      `log2(a)` exactly when `2^n <= a`. */
  ghost predicate Log2Exact(log2: real -> real) {
    forall a: real, n: nat {:trigger log2(a), Pow2(n)} :: 0.0 < a ==> (n as real <= log2(a) <==> Pow2(n) as real <= a)
  }

  lemma DivideByLarger(w: real, s: real, t: real)
    requires w > 0.0 && 0.0 < s <= t
    ensures w / t <= w / s
  {
    assert w / t * t == w;
    assert w / s * s == w;
    assert w / t * s <= w / t * t;
  }

  lemma ChosenZoomMonotonicAxis(w: int, s: real, t: real, log2: real -> real)
    requires Log2Monotonic(log2) && w > 0 && MinSpan <= s <= t
    ensures log2(Ratio(w, t)) <= log2(Ratio(w, s))
  {
    DivideByLarger(w as real, TileSize as real * s, TileSize as real * t);
  }

  /** Framing a box that contains another never zooms in further: adding
      listings to the set can only keep or lower the chosen zoom. */
  lemma ChosenZoomMonotonic(small: Box, large: Box, width: int, height: int, log2: real -> real)
    requires Log2Monotonic(log2)
    requires BoxWithin(small, large)
    ensures ChosenZoom(large, width, height, log2) <= ChosenZoom(small, width, height, log2)
  {
    if width > 0 && height > 0 {
      ChosenZoomMonotonicAxis(width, SpanX(small), SpanX(large), log2);
      ChosenZoomMonotonicAxis(height, SpanY(small), SpanY(large), log2);
      var cs := ContinuousZoom(small, width, height, log2).value;
      var cl := ContinuousZoom(large, width, height, log2).value;
      assert cl.Floor <= cs.Floor;
    }
  }

  /** Unless clamped at zoom 0, the fitted zoom shows the whole box: at that
      zoom both spans, in pixels, fit the picture. */
  lemma FitZoomFits(b: Box, width: int, height: int, log2: real -> real)
    requires Log2Exact(log2)
    requires width > 0 && height > 0
    requires ContinuousZoom(b, width, height, log2).value >= 0.0
    ensures MapSize(FitZoom(b, width, height, log2)) * SpanX(b) <= width as real
    ensures MapSize(FitZoom(b, width, height, log2)) * SpanY(b) <= height as real
  {
    var z := FitZoom(b, width, height, log2);
    assert z as real <= log2(Ratio(width, SpanX(b))) && z as real <= log2(Ratio(height, SpanY(b)));
    LevelFits(log2, z, width, SpanX(b));
    LevelFits(log2, z, height, SpanY(b));
  }

  /** Unless clamped at zoom 19 or 0, the fitted zoom is the largest that
      fits: one level more and some span overflows the picture. */
  lemma FitZoomIsLargest(b: Box, width: int, height: int, log2: real -> real)
    requires Log2Exact(log2)
    requires width > 0 && height > 0
    requires 0.0 <= ContinuousZoom(b, width, height, log2).value < MaxZoom as real
    ensures FitZoom(b, width, height, log2) + 1 <= MaxZoom
    ensures MapSize(FitZoom(b, width, height, log2) + 1) * SpanX(b) > width as real ||
            MapSize(FitZoom(b, width, height, log2) + 1) * SpanY(b) > height as real
  {
    var sx, sy := SpanX(b), SpanY(b);
    var k := NextLevel(MinReal(log2(Ratio(width, sx)), log2(Ratio(height, sy))));
    FitZoomBelowNext(b, width, height, log2);
    AboveMinOverflows(log2, k, width, height, sx, sy);
  }

  /** A whole zoom level above the smaller of the two axis zooms draws some
      span wider than the picture. */
  lemma AboveMinOverflows(log2: real -> real, k: Zoom, width: int, height: int, sx: real, sy: real)
    requires Log2Exact(log2) && width > 0 && height > 0 && sx > 0.0 && sy > 0.0
    requires k as real > MinReal(log2(Ratio(width, sx)), log2(Ratio(height, sy)))
    ensures MapSize(k) * sx > width as real || MapSize(k) * sy > height as real
  {
    SomeRatioExceeded(log2, k, width, height, sx, sy);
    SomeAxisOverflows(k, width, height, sx, sy);
  }

  /** A whole zoom level above the smaller of the two axis zooms has more
      tiles across than the ratio of the axis that gave it. */
  lemma SomeRatioExceeded(log2: real -> real, k: Zoom, width: int, height: int, sx: real, sy: real)
    requires Log2Exact(log2) && width > 0 && height > 0 && sx > 0.0 && sy > 0.0
    requires k as real > MinReal(log2(Ratio(width, sx)), log2(Ratio(height, sy)))
    ensures Pow2(k) as real > Ratio(width, sx) || Pow2(k) as real > Ratio(height, sy)
  {
    if log2(Ratio(width, sx)) <= log2(Ratio(height, sy)) {
      Log2At(log2, Ratio(width, sx), k);
    } else {
      Log2At(log2, Ratio(height, sy), k);
    }
  }

  /** A level with more tiles across than some axis ratio overflows that
      axis. */
  lemma SomeAxisOverflows(k: Zoom, width: int, height: int, sx: real, sy: real)
    requires width > 0 && height > 0 && sx > 0.0 && sy > 0.0
    requires Pow2(k) as real > Ratio(width, sx) || Pow2(k) as real > Ratio(height, sy)
    ensures MapSize(k) * sx > width as real || MapSize(k) * sy > height as real
  {
    if Pow2(k) as real > Ratio(width, sx) {
      AxisOverflows(k, width, sx);
    } else {
      AxisOverflows(k, height, sy);
    }
  }

  /** Below zoom 19 the fitted zoom is the level just under the
      continuous one. */
  lemma FitZoomBelowNext(b: Box, width: int, height: int, log2: real -> real)
    requires width > 0 && height > 0
    requires 0.0 <= ContinuousZoom(b, width, height, log2).value < MaxZoom as real
    ensures 0.0 <= MinReal(log2(Ratio(width, SpanX(b))), log2(Ratio(height, SpanY(b)))) < MaxZoom as real
    ensures FitZoom(b, width, height, log2) + 1 ==
            NextLevel(MinReal(log2(Ratio(width, SpanX(b))), log2(Ratio(height, SpanY(b)))))
  {
  }

  /** A whole zoom level at most `log2` of an axis ratio draws that span
      within the picture. */
  lemma LevelFits(log2: real -> real, k: Zoom, w: int, span: real)
    requires Log2Exact(log2) && w > 0 && span > 0.0
    requires k as real <= log2(Ratio(w, span))
    ensures MapSize(k) * span <= w as real
  {
    Log2At(log2, Ratio(w, span), k);
    AxisFits(k, w, span);
  }

  /** One instance of `Log2Exact`. */
  lemma Log2At(log2: real -> real, a: real, n: nat)
    requires Log2Exact(log2) && a > 0.0
    ensures n as real <= log2(a) <==> Pow2(n) as real <= a
  {
  }

  /** The level just above a continuous zoom in [0, 19). */
  function NextLevel(c: real): (k: Zoom)
    requires 0.0 <= c < MaxZoom as real
    ensures k as real > c && k - 1 == ClampZoom(c.Floor)
  {
    c.Floor + 1
  }

  /** A zoom whose tile count is at most the axis ratio draws the span no
      wider than the picture. */
  lemma AxisFits(k: Zoom, w: int, span: real)
    requires w > 0 && span > 0.0
    requires Pow2(k) as real <= Ratio(w, span)
    ensures MapSize(k) * span <= w as real
  {
    FitsAt(MapSize(k), Pow2(k) as real, span, w as real, Ratio(w, span));
  }

  lemma AxisOverflows(k: Zoom, w: int, span: real)
    requires w > 0 && span > 0.0
    requires Pow2(k) as real > Ratio(w, span)
    ensures MapSize(k) * span > w as real
  {
    OverflowsAt(MapSize(k), Pow2(k) as real, span, w as real, Ratio(w, span));
  }

  /** With `m = 256 p` and `r = w / (256 span)`: `p <= r` gives `m span <= w`. */
  lemma FitsAt(m: real, p: real, span: real, w: real, r: real)
    requires span > 0.0 && m == TileSize as real * p && r == w / (TileSize as real * span)
    requires p <= r
    ensures m * span <= w
  {
    var s := TileSize as real * span;
    ScaledLe(p, s, w);
    Regroup(m, TileSize as real, p, span);
  }

  /** With `m = 256 p` and `r = w / (256 span)`: `p > r` gives `m span > w`. */
  lemma OverflowsAt(m: real, p: real, span: real, w: real, r: real)
    requires span > 0.0 && m == TileSize as real * p && r == w / (TileSize as real * span)
    requires p > r
    ensures m * span > w
  {
    var s := TileSize as real * span;
    ScaledGt(p, s, w);
    Regroup(m, TileSize as real, p, span);
  }

  /** With `m = t p`, `m s == p (t s)`. */
  lemma Regroup(m: real, t: real, p: real, s: real)
    requires m == t * p
    ensures m * s == p * (t * s)
  {
  }

  /** `p <= w / s` is `p s <= w` for positive `s`. */
  lemma ScaledLe(p: real, s: real, w: real)
    requires s > 0.0 && p <= w / s
    ensures p * s <= w
  {
    assert p * s <= w / s * s;
    assert w / s * s == w;
  }

  /** `p > w / s` is `p s > w` for positive `s`. */
  lemma ScaledGt(p: real, s: real, w: real)
    requires s > 0.0 && p > w / s
    ensures p * s > w
  {
    assert p * s > w / s * s;
    assert w / s * s == w;
  }

  /** The smallest longitude among the listings, computed directly on
      degrees: the reference the box is checked against. */
  function MinLon(ps: seq<Property>): (m: real)
    requires |ps| > 0
    ensures forall i :: 0 <= i < |ps| ==> m <= ps[i].longitude
    ensures exists i :: 0 <= i < |ps| && ps[i].longitude == m
    decreases |ps|
  {
    if |ps| == 1 then ps[0].longitude
    else
      var n := |ps| - 1;
      assert forall i :: 0 <= i < n ==> ps[..n][i] == ps[i];
      MinReal(MinLon(ps[..n]), ps[n].longitude)
  }

  function MaxLon(ps: seq<Property>): (m: real)
    requires |ps| > 0
    ensures forall i :: 0 <= i < |ps| ==> ps[i].longitude <= m
    ensures exists i :: 0 <= i < |ps| && ps[i].longitude == m
    decreases |ps|
  {
    if |ps| == 1 then ps[0].longitude
    else
      var n := |ps| - 1;
      assert forall i :: 0 <= i < n ==> ps[..n][i] == ps[i];
      MaxReal(MaxLon(ps[..n]), ps[n].longitude)
  }

  /** The box of the projected listings spans exactly the listings' extreme
      longitudes. */
  lemma BoundsMatchLongitudes(ps: seq<Property>, mercY: real -> real)
    requires |ps| > 0
    ensures Bounds(NormalizeAll(ps, mercY)).minX == NormX(MinLon(ps))
    ensures Bounds(NormalizeAll(ps, mercY)).maxX == NormX(MaxLon(ps))
  {
    BoundsMinMatches(ps, NormalizeAll(ps, mercY), mercY);
    BoundsMaxMatches(ps, NormalizeAll(ps, mercY), mercY);
  }

  lemma BoundsMinMatches(ps: seq<Property>, pts: seq<NormPoint>, mercY: real -> real)
    requires |ps| > 0 && pts == NormalizeAll(ps, mercY)
    ensures Bounds(pts).minX == NormX(MinLon(ps))
  {
    var b := Bounds(pts);
    var i :| 0 <= i < |pts| && pts[i].x == b.minX;
    var j :| 0 <= j < |ps| && ps[j].longitude == MinLon(ps);
    NormXMonotonic(MinLon(ps), ps[i].longitude);
    assert InBox(b, pts[j]);
  }

  lemma BoundsMaxMatches(ps: seq<Property>, pts: seq<NormPoint>, mercY: real -> real)
    requires |ps| > 0 && pts == NormalizeAll(ps, mercY)
    ensures Bounds(pts).maxX == NormX(MaxLon(ps))
  {
    var b := Bounds(pts);
    var k :| 0 <= k < |pts| && pts[k].x == b.maxX;
    var l :| 0 <= l < |ps| && ps[l].longitude == MaxLon(ps);
    NormXMonotonic(ps[k].longitude, MaxLon(ps));
    assert InBox(b, pts[l]);
  }

  /** Where the map is centred and at which zoom. */
  datatype View = View(centerLat: real, centerLon: real, zoom: Zoom)

  /** `LoadMap(45.7580, 21.2355)` with its default zoom 15. */
  const DefaultView: View := View(45.7580, 21.2355, 15)

  /** `ShowAgencyOnMap`: the default view for no listings; otherwise the
      centre of the listings' box at the chosen zoom. */
  function Frame(ps: seq<Property>, width: int, height: int,
                 mercY: real -> real, invLat: real -> real, log2: real -> real): (v: View)
    ensures |ps| == 0 ==> v == DefaultView
    ensures |ps| > 0 ==> v.centerLon == (MinLon(ps) + MaxLon(ps)) / 2.0
    ensures |ps| > 0 ==> MinLon(ps) <= v.centerLon <= MaxLon(ps)
    ensures |ps| > 0 ==> v.zoom == ChosenZoom(Bounds(NormalizeAll(ps, mercY)), width, height, log2)
    ensures |ps| > 0 ==> v.centerLat == invLat(MidY(Bounds(NormalizeAll(ps, mercY))))
  {
    if |ps| == 0 then DefaultView
    else
      var b := Bounds(NormalizeAll(ps, mercY));
      var c := FrameCenter(ps, mercY);
      View(invLat(MidY(b)), LonOfNormX(c.x), ChosenZoom(b, width, height, log2))
  }

  /** The vertical midpoint of a box, `(minY + maxY) / 2`. */
  function MidY(b: Box): real {
    (b.minY + b.maxY) / 2.0
  }

  /** The centre of the listings' box: its column is the normalised
      midpoint of the extreme longitudes, its row the box's vertical
      midpoint. */
  function FrameCenter(ps: seq<Property>, mercY: real -> real): (c: NormPoint)
    requires |ps| > 0
    ensures LonOfNormX(c.x) == (MinLon(ps) + MaxLon(ps)) / 2.0
    ensures MinLon(ps) <= MaxLon(ps)
    ensures c.y == MidY(Bounds(NormalizeAll(ps, mercY)))
  {
    var pts := NormalizeAll(ps, mercY);
    var b := Bounds(pts);
    assert b.minX <= pts[0].x <= b.maxX;
    assert b.minY <= pts[0].y <= b.maxY;
    BoundsMatchLongitudes(ps, mercY);
    NormXRoundTrip(MinLon(ps), 0.0);
    NormXRoundTrip(MaxLon(ps), 0.0);
    assert MinLon(ps) <= ps[0].longitude <= MaxLon(ps);
    Center(b)
  }

  /** Adding listings never makes the framed map zoom in further. */
  lemma {:induction false} FrameZoomMonotonic(ps: seq<Property>, more: seq<Property>, width: int, height: int,
                                              mercY: real -> real, invLat: real -> real, log2: real -> real)
    requires Log2Monotonic(log2)
    requires |ps| > 0
    ensures Frame(ps + more, width, height, mercY, invLat, log2).zoom <=
            Frame(ps, width, height, mercY, invLat, log2).zoom
  {
    var small := Bounds(NormalizeAll(ps, mercY));
    var all := NormalizeAll(ps + more, mercY);
    var large := Bounds(all);
    var i1 :| 0 <= i1 < |ps| && NormalizeAll(ps, mercY)[i1].x == small.minX;
    var i2 :| 0 <= i2 < |ps| && NormalizeAll(ps, mercY)[i2].x == small.maxX;
    var i3 :| 0 <= i3 < |ps| && NormalizeAll(ps, mercY)[i3].y == small.minY;
    var i4 :| 0 <= i4 < |ps| && NormalizeAll(ps, mercY)[i4].y == small.maxY;
    assert InBox(large, all[i1]) && InBox(large, all[i2]) && InBox(large, all[i3]) && InBox(large, all[i4]);
    ChosenZoomMonotonic(small, large, width, height, log2);
  }
}
