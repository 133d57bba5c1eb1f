/** The main map window (`Form1`): which view each action renders, how a
    view is rendered into tile paints, marker glyphs and the click index, and
    what a click on the picture does.

    The network fetch of a tile is a parameter `fetched` (true when the
    download and decode succeed); the latitude half of the projection is the
    parameter `mercY` (latitude to normalised Mercator row). */
module MainMap {

  import opened Common
  import opened Tiles
  import opened Projection
  import opened Geometry
  import opened Listings
  import opened Overlay
  import opened Fitter

  /** The zoom a single listing is shown at. */
  const SingleZoom: Zoom := 17

  /** `Math.Round` on a double: the nearest integer, ties to the even one. */
  function RoundHalfEven(x: real): (r: int)
    ensures x - 0.5 <= r as real <= x + 0.5
    ensures (r as real - x == 0.5 || x - r as real == 0.5) ==> r % 2 == 0
  {
    var f := x.Floor;
    var d := x - f as real;
    if d < 0.5 then f
    else if d > 0.5 then f + 1
    else if f % 2 == 0 then f
    else f + 1
  }

  /** An integer strictly closer than one half to `x` is what `x` rounds to. */
  lemma RoundNearest(x: real, n: int)
    requires n as real - 0.5 < x < n as real + 0.5
    ensures RoundHalfEven(x) == n
  {
  }

  /** Whole numbers round to themselves. */
  lemma RoundWhole(n: int)
    ensures RoundHalfEven(n as real) == n
  {
    RoundNearest(n as real, n);
  }

  /** Where the map is centred, at which zoom, and the picture size. */
  datatype Viewport = Viewport(centerLat: real, centerLon: real, zoom: Zoom, width: int, height: int)

  /** The world pixel at the picture's top-left corner: the centre's world
      pixel less half the picture. */
  function TopLeft(v: Viewport, mercY: real -> real): (p: (real, real))
    ensures WorldX(v.centerLon, v.zoom) - p.0 == v.width as real / 2.0
    ensures WorldY(v.centerLat, v.zoom, mercY) - p.1 == v.height as real / 2.0
  {
    (WorldX(v.centerLon, v.zoom) - v.width as real / 2.0,
     WorldY(v.centerLat, v.zoom, mercY) - v.height as real / 2.0)
  }

  /** The picture pixel a listing's marker is drawn at. */
  function ScreenPoint(v: Viewport, p: Property, mercY: real -> real): (at: Point)
    ensures var (left, top) := TopLeft(v, mercY);
            (at.x as real - (WorldX(p.longitude, v.zoom) - left)) <= 0.5 &&
            ((WorldX(p.longitude, v.zoom) - left) - at.x as real) <= 0.5 &&
            (at.y as real - (WorldY(p.latitude, v.zoom, mercY) - top)) <= 0.5 &&
            ((WorldY(p.latitude, v.zoom, mercY) - top) - at.y as real) <= 0.5
  {
    var (left, top) := TopLeft(v, mercY);
    Point(RoundHalfEven(WorldX(p.longitude, v.zoom) - left),
          RoundHalfEven(WorldY(p.latitude, v.zoom, mercY) - top))
  }

  /** The listing at the centre of the view is drawn at the middle of the
      picture (rounded, for odd sizes). */
  lemma CentreDrawnInMiddle(v: Viewport, p: Property, mercY: real -> real)
    requires p.latitude == v.centerLat && p.longitude == v.centerLon
    requires v.width % 2 == 0 && v.height % 2 == 0
    ensures ScreenPoint(v, p, mercY) == Point(v.width / 2, v.height / 2)
  {
    RoundWhole(v.width / 2);
    RoundWhole(v.height / 2);
  }

  /** Every marker placed at its picture pixel. */
  function Place(v: Viewport, ms: seq<Marker>, mercY: real -> real): (placed: seq<PlacedMarker>)
    ensures |placed| == |ms|
    ensures forall i :: 0 <= i < |ms| ==>
      placed[i].marker == ms[i] && placed[i].at == ScreenPoint(v, ms[i].property, mercY)
  {
    seq(|ms|, i requires 0 <= i < |ms| => PlacedMarker(ms[i], ScreenPoint(v, ms[i].property, mercY)))
  }

  /** One tile square of the picture: the downloaded image, or the gray
      fallback square when the download or decode failed. */
  datatype TilePaint = Fetched(tile: TileRequest, at: Point) | Fallback(tile: TileRequest, at: Point)

  /** The picture pixel of a tile's top-left corner; the unwrapped column is
      used, so a wrapped tile is drawn where the viewport needs it. */
  function TileCorner(t: TileRequest, left: real, top: real): (at: Point)
    ensures (t.column * TileSize) as real - left - 0.5 <= at.x as real <= (t.column * TileSize) as real - left + 0.5
    ensures (t.y * TileSize) as real - top - 0.5 <= at.y as real <= (t.y * TileSize) as real - top + 0.5
  {
    Point(RoundHalfEven((t.column * TileSize) as real - left), RoundHalfEven((t.y * TileSize) as real - top))
  }

  function PaintTiles(plan: seq<TileRequest>, left: real, top: real, fetched: TileRequest -> bool): (ps: seq<TilePaint>)
    ensures |ps| == |plan|
    ensures forall i :: 0 <= i < |plan| ==>
      ps[i].tile == plan[i] && ps[i].at == TileCorner(plan[i], left, top) &&
      (ps[i].Fetched? <==> fetched(plan[i]))
  {
    seq(|plan|, i requires 0 <= i < |plan| =>
      if fetched(plan[i]) then Fetched(plan[i], TileCorner(plan[i], left, top))
      else Fallback(plan[i], TileCorner(plan[i], left, top)))
  }

  /** A drawn marker: its listing, centre pixel and colours. */
  datatype Glyph = Glyph(id: nat, at: Point, colors: Palette)

  /** The glyph drawn for a placed marker. */
  function GlyphOf(m: PlacedMarker): Glyph {
    Glyph(m.marker.id, m.at, MarkerColors(m.marker.property))
  }

  /** Markers whose hit box is not wholly off the picture are drawn, in
      order, in the colours of their listing. The order is stated by
      `GlyphsConcat`: later glyphs are painted over earlier ones. */
  function Glyphs(ms: seq<PlacedMarker>, width: int, height: int): (gs: seq<Glyph>)
    ensures |gs| <= |ms|
    ensures |ms| == 1 ==> gs == (if OffScreen(HitBox(ms[0].at), width, height) then [] else [GlyphOf(ms[0])])
    ensures forall g :: g in gs <==>
      exists i :: 0 <= i < |ms| && !OffScreen(HitBox(ms[i].at), width, height) &&
                  g == Glyph(ms[i].marker.id, ms[i].at, MarkerColors(ms[i].marker.property))
    decreases |ms|
  {
    if |ms| == 0 then []
    else
      var n := |ms| - 1;
      var init := Glyphs(ms[..n], width, height);
      assert forall i :: 0 <= i < n ==> ms[..n][i] == ms[i];
      var m := ms[n];
      if OffScreen(HitBox(m.at), width, height) then init
      else init + [Glyph(m.marker.id, m.at, MarkerColors(m.marker.property))]
  }

  /** Drawing two runs of markers one after the other draws the first run's
      glyphs, then the second's: together with the one-marker case of
      `Glyphs`, this fixes the glyph list, order included. */
  lemma {:induction false} GlyphsConcat(a: seq<PlacedMarker>, b: seq<PlacedMarker>, width: int, height: int)
    ensures Glyphs(a + b, width, height) == Glyphs(a, width, height) + Glyphs(b, width, height)
    decreases |b|
  {
    if |b| == 0 {
      assert a + b == a;
    } else {
      var n := |b| - 1;
      GlyphsConcat(a, b[..n], width, height);
      assert a + b == (a + b[..n]) + [b[n]];
      assert b == b[..n] + [b[n]];
      GlyphsSnoc(a + b[..n], b[n], width, height);
      GlyphsSnoc(b[..n], b[n], width, height);
    }
  }

  /** Drawing one more marker adds its glyph at the end, unless culled. */
  lemma GlyphsSnoc(ms: seq<PlacedMarker>, m: PlacedMarker, width: int, height: int)
    ensures Glyphs(ms + [m], width, height) ==
            Glyphs(ms, width, height) + (if OffScreen(HitBox(m.at), width, height) then [] else [GlyphOf(m)])
  {
    assert (ms + [m])[..|ms|] == ms;
  }

  /** What `GenerateStaticMap` produces: the tile squares in drawing order,
      the marker glyphs drawn over them, and the rebuilt click index. */
  datatype Picture = Picture(tiles: seq<TilePaint>, glyphs: seq<Glyph>, index: HitIndex)

  /** `markers` when given, otherwise the selected agency's listings. */
  function MarkersToDraw(explicit: Option<seq<Marker>>, selected: seq<Marker>): (ms: seq<Marker>)
    ensures explicit.Some? ==> ms == explicit.value
    ensures explicit.None? ==> ms == selected
  {
    match explicit
    case Some(m) => m
    case None => selected
  }

  /** `GenerateStaticMap`: paint every planned tile, draw each marker that is
      not culled, and file each drawn marker's clamped box in an index
      started from empty. */
  function Render(v: Viewport, explicit: Option<seq<Marker>>, selected: seq<Marker>,
                  mercY: real -> real, fetched: TileRequest -> bool): (pic: Picture)
    requires v.width > 0 && v.height > 0
    ensures var (left, top) := TopLeft(v, mercY);
            var plan := PlanTiles(v.zoom, left, top, v.width, v.height);
            |pic.tiles| == |plan| &&
            forall i :: 0 <= i < |plan| ==> pic.tiles[i].tile == plan[i] && (pic.tiles[i].Fetched? <==> fetched(plan[i]))
    ensures var placed := Place(v, MarkersToDraw(explicit, selected), mercY);
            forall g :: g in pic.glyphs <==>
              exists i :: 0 <= i < |placed| && !OffScreen(HitBox(placed[i].at), v.width, v.height) &&
                          g == Glyph(placed[i].marker.id, placed[i].at, MarkerColors(placed[i].marker.property))
    ensures var (left, top) := TopLeft(v, mercY);
            pic.tiles == PaintTiles(PlanTiles(v.zoom, left, top, v.width, v.height), left, top, fetched)
    ensures pic.glyphs == Glyphs(Place(v, MarkersToDraw(explicit, selected), mercY), v.width, v.height)
    ensures WellFormed(pic.index)
  {
    var (left, top) := TopLeft(v, mercY);
    var placed := Place(v, MarkersToDraw(explicit, selected), mercY);
    BuildIndexWellFormed(placed, v.width, v.height);
    Picture(PaintTiles(PlanTiles(v.zoom, left, top, v.width, v.height), left, top, fetched),
            Glyphs(placed, v.width, v.height),
            BuildIndex(placed, v.width, v.height))
  }

  /** A click on a rendered picture finds exactly the markers whose clamped
      hit box contains the clicked pixel, with no duplicates. */
  lemma RenderedHitTest(v: Viewport, explicit: Option<seq<Marker>>, selected: seq<Marker>,
                        mercY: real -> real, fetched: TileRequest -> bool, click: Point, id: nat)
    requires v.width > 0 && v.height > 0
    ensures var placed := Place(v, MarkersToDraw(explicit, selected), mercY);
            id in Query(Render(v, explicit, selected, mercY, fetched).index, click) <==>
            exists i :: 0 <= i < |placed| && placed[i].marker.id == id &&
                        ClampedBox(placed[i].at, v.width, v.height).Some? &&
                        ClampedBox(placed[i].at, v.width, v.height).value.Contains(click)
    ensures NoDup(Query(Render(v, explicit, selected, mercY, fetched).index, click))
  {
    var placed := Place(v, MarkersToDraw(explicit, selected), mercY);
    HitTestExact(placed, v.width, v.height, click, id);
  }

  /** Every marker that can be clicked was drawn: the index never holds a
      marker without a glyph. */
  lemma ClickableIsDrawn(ms: seq<PlacedMarker>, width: int, height: int, i: nat)
    requires width > 0 && height > 0
    requires i < |ms| && ClampedBox(ms[i].at, width, height).Some?
    ensures Glyph(ms[i].marker.id, ms[i].at, MarkerColors(ms[i].marker.property)) in Glyphs(ms, width, height)
  {
  }

  /** A marker at pixel (-10, -10) is drawn (its box touches the picture's
      corner) but is never filed, so no click can reach it. */
  lemma CornerMarkerNotClickable(m: Marker, width: int, height: int, click: Point)
    requires width > 0 && height > 0
    ensures Glyph(m.id, Point(-10, -10), MarkerColors(m.property)) in Glyphs([PlacedMarker(m, Point(-10, -10))], width, height)
    ensures m.id !in Query(BuildIndex([PlacedMarker(m, Point(-10, -10))], width, height), click)
  {
    HitTestExact([PlacedMarker(m, Point(-10, -10))], width, height, click, m.id);
  }

  /** What a click on the picture leads to. */
  datatype ClickAction =
    | Ignore                   // no image, or no marker under the click
    | ShowInfo(id: nat)        // exactly one marker: its info dialog
    | Choose(ids: seq<nat>)    // several: the chooser over them, in order

  /** `PictureBoxMap_MouseClick`. */
  function OnClick(hasImage: bool, index: HitIndex, click: Point): (a: ClickAction)
    ensures !hasImage ==> a == Ignore
    ensures hasImage ==> (a == Ignore <==> Matches(index, click) == [])
    ensures a.ShowInfo? ==> exists k :: 0 <= k < |index| && index[k].rect.Contains(click) && a.id in index[k].ids
    ensures a.ShowInfo? ==> forall id :: id in Matches(index, click) ==> id == a.id
    ensures a.Choose? ==> |a.ids| >= 2 && NoDup(a.ids) &&
                          forall id :: id in a.ids <==> id in Matches(index, click)
    ensures a.Choose? ==> a.ids == Query(index, click)
  {
    if !hasImage then Ignore
    else
      var ids := Query(index, click);
      if |ids| > 0 then
        assert ids[0] in Matches(index, click);
        if |ids| == 1 then ShowInfo(ids[0]) else Choose(ids)
      else
        assert forall id :: id !in Matches(index, click);
        Ignore
  }

  /** The placed marker's clamped box exists and contains the click. */
  predicate Hit(m: PlacedMarker, width: int, height: int, click: Point)
    requires width > 0 && height > 0
  {
    ClampedBox(m.at, width, height).Some? && ClampedBox(m.at, width, height).value.Contains(click)
  }

  /** `HitTestExact` for every listing at once. */
  lemma QueryOfRendered(ms: seq<PlacedMarker>, width: int, height: int, click: Point)
    requires width > 0 && height > 0
    ensures forall id :: id in Query(BuildIndex(ms, width, height), click) <==>
      exists i :: 0 <= i < |ms| && ms[i].marker.id == id && Hit(ms[i], width, height, click)
  {
    forall id ensures id in Query(BuildIndex(ms, width, height), click) <==>
      exists i :: 0 <= i < |ms| && ms[i].marker.id == id && Hit(ms[i], width, height, click)
    {
      HitTestExact(ms, width, height, click, id);
    }
  }

  /** On a rendered picture a click opens one listing's info exactly when
      every marker under the click is that listing and there is one. */
  lemma ClickOnRendered(ms: seq<PlacedMarker>, width: int, height: int, click: Point, id: nat)
    requires width > 0 && height > 0
    ensures OnClick(true, BuildIndex(ms, width, height), click) == ShowInfo(id) <==>
      (exists i :: 0 <= i < |ms| && ms[i].marker.id == id && Hit(ms[i], width, height, click)) &&
      (forall i :: 0 <= i < |ms| && Hit(ms[i], width, height, click) ==> ms[i].marker.id == id)
  {
    var ids := Query(BuildIndex(ms, width, height), click);
    assert OnClick(true, BuildIndex(ms, width, height), click) == ShowInfo(id) <==> ids == [id];
    SingletonExactly(ids, id);
    QueryOfRendered(ms, width, height, click);
    if forall x :: x in ids ==> x == id {
      forall i | 0 <= i < |ms| && Hit(ms[i], width, height, click) ensures ms[i].marker.id == id {
        assert ms[i].marker.id in ids;
      }
    }
  }

  /** A list without duplicates is `[id]` exactly when it holds `id` and
      nothing else. */
  lemma SingletonExactly(ids: seq<nat>, id: nat)
    requires NoDup(ids)
    ensures ids == [id] <==> id in ids && forall x :: x in ids ==> x == id
  {
    if id in ids && forall x :: x in ids ==> x == id {
      if |ids| >= 2 {
        assert ids[0] in ids && ids[1] in ids;
      }
    }
  }

  /** The view and marker list each map action renders. */
  datatype Request = Request(view: View, markers: Option<seq<Marker>>)

  /** `ShowSinglePropertyOnMap`: centred on the listing at zoom 17, with only
      that listing's marker. */
  function ShowSingle(m: Marker): (r: Request)
    ensures r.view.centerLat == m.property.latitude && r.view.centerLon == m.property.longitude
    ensures r.view.zoom == SingleZoom && r.markers == Some([m])
  {
    Request(View(m.property.latitude, m.property.longitude, SingleZoom), Some([m]))
  }

  /** `ShowAgencyOnMap`: the fitted frame around the listings with exactly
      those markers; for no listings, the default view with the selected
      agency's markers. */
  function ShowAgency(ms: seq<Marker>, width: int, height: int,
                      mercY: real -> real, invLat: real -> real, log2: real -> real): (r: Request)
    ensures |ms| == 0 ==> r == Request(DefaultView, None)
    ensures |ms| > 0 ==> r.markers == Some(ms)
    ensures |ms| > 0 ==> MinLon(Properties(ms)) <= r.view.centerLon <= MaxLon(Properties(ms))
    ensures |ms| > 0 ==> r.view.centerLon == (MinLon(Properties(ms)) + MaxLon(Properties(ms))) / 2.0
    ensures |ms| > 0 ==> r.view.centerLat == invLat(MidY(Bounds(NormalizeAll(Properties(ms), mercY))))
    ensures |ms| > 0 ==> r.view.zoom == ChosenZoom(Bounds(NormalizeAll(Properties(ms), mercY)), width, height, log2)
  {
    if |ms| == 0 then Request(DefaultView, None)
    else Request(Frame(Properties(ms), width, height, mercY, invLat, log2), Some(ms))
  }

  function Properties(ms: seq<Marker>): (ps: seq<Property>)
    ensures |ps| == |ms| && forall i :: 0 <= i < |ms| ==> ps[i] == ms[i].property
  {
    seq(|ms|, i requires 0 <= i < |ms| => ms[i].property)
  }
}
