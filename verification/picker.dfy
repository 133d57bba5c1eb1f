/** The location picker dialog (`MapPickerForm`): it renders a tile map
    around a centre, turns a click into a latitude/longitude selection, and
    closes with OK only once a location has been chosen.

    The inverse latitude projection (`InverseMercatorLat`, normalised row to
    degrees) is the parameter `invLat`; the forward one is `mercY`. */
module MapPicker {

  import opened Common
  import opened Tiles
  import opened Projection
  import opened Geometry

  const InitialLat: real := 45.7580
  const InitialLon: real := 21.2355
  const InitialZoom: Zoom := 15
  const InitialWidth: int := 600
  const InitialHeight: int := 400

  datatype DialogResult = Pending | OK | Cancel

  /** The dialog's fields. `topLeftX`/`topLeftY` are the world pixel at the
      picture's corner, set by the last render; `tiles` are the tiles that
      render requested; `pin` is the red marker of the last click. */
  datatype Picker = Picker(
    width: int, height: int,
    centerLat: real, centerLon: real, zoom: Zoom,
    topLeftX: real, topLeftY: real,
    tiles: seq<TileRequest>,
    pin: Option<Point>,
    selectedLat: Option<real>, selectedLon: Option<real>,
    result: DialogResult)
  {
    /** Both coordinates have been chosen. */
    predicate HasSelection() {
      selectedLat.Some? && selectedLon.Some?
    }
  }

  /** The constructor: nothing rendered and nothing selected yet. */
  function NewPicker(lat: real, lon: real, zoom: Zoom, width: int, height: int): (p: Picker)
    ensures !p.HasSelection() && p.selectedLat.None? && p.selectedLon.None? && p.pin.None?
    ensures p.result == Pending && p.tiles == []
    ensures p.centerLat == lat && p.centerLon == lon && p.zoom == zoom && p.width == width && p.height == height
  {
    Picker(width, height, lat, lon, zoom, 0.0, 0.0, [], None, None, None, Pending)
  }

  /** The constructor called with all its default arguments: the default
      centre and zoom in a 600 by 400 picture, which can be rendered. */
  function DefaultPicker(): (p: Picker)
    ensures p == NewPicker(InitialLat, InitialLon, InitialZoom, InitialWidth, InitialHeight)
    ensures p.width > 0 && p.height > 0 && !p.HasSelection() && p.result == Pending
  {
    NewPicker(InitialLat, InitialLon, InitialZoom, InitialWidth, InitialHeight)
  }

  /** `GenerateMapAsync(latitude, longitude, z)`: centre the picture on the
      given point at zoom `z`, request the covering tiles, and forget any
      selection. The dialog's own `zoom` field is not changed. */
  function Generate(p: Picker, lat: real, lon: real, z: Zoom, mercY: real -> real): (r: Picker)
    requires p.width > 0 && p.height > 0
    ensures r.selectedLat.None? && r.selectedLon.None? && r.pin.None? && !r.HasSelection()
    ensures r.topLeftX + p.width as real / 2.0 == WorldX(lon, z)
    ensures r.topLeftY + p.height as real / 2.0 == WorldY(lat, z, mercY)
    ensures forall t :: t in r.tiles ==> ServerValid(t) && t.zoom == z
    ensures forall px: real, py: real ::
      r.topLeftX <= px <= r.topLeftX + p.width as real &&
      r.topLeftY <= py <= r.topLeftY + p.height as real && RowExists(z, TileOf(py)) ==>
      Request(z, TileOf(px), TileOf(py)) in r.tiles
    ensures r.tiles == PlanTiles(z, r.topLeftX, r.topLeftY, p.width, p.height)
    ensures r.width == p.width && r.height == p.height && r.zoom == p.zoom && r.result == p.result
    ensures r.centerLat == p.centerLat && r.centerLon == p.centerLon
  {
    var left := WorldX(lon, z) - p.width as real / 2.0;
    var top := WorldY(lat, z, mercY) - p.height as real / 2.0;
    p.(topLeftX := left, topLeftY := top,
       tiles := PlanTiles(z, left, top, p.width, p.height),
       pin := None, selectedLat := None, selectedLon := None)
  }

  /** The `Load` handler: render around the dialog's own centre and zoom. */
  function Loaded(p: Picker, mercY: real -> real): (r: Picker)
    requires p.width > 0 && p.height > 0
    ensures r == Generate(p, p.centerLat, p.centerLon, p.zoom, mercY)
    ensures r.topLeftX + p.width as real / 2.0 == WorldX(p.centerLon, p.zoom)
    ensures r.topLeftY + p.height as real / 2.0 == WorldY(p.centerLat, p.zoom, mercY)
    ensures !r.HasSelection() && r.pin.None? && r.result == p.result
  {
    Generate(p, p.centerLat, p.centerLon, p.zoom, mercY)
  }

  /** `PbMap_MouseClick`: the click's world pixel is the corner plus the
      click offset; its longitude inverts the forward formula at the dialog's
      zoom, and its latitude is `invLat` of the normalised row. Both
      coordinates are set and the pin moves to the click. */
  function Click(p: Picker, ex: int, ey: int, invLat: real -> real): (r: Picker)
    ensures r.HasSelection()
    ensures WorldX(r.selectedLon.value, p.zoom) == p.topLeftX + ex as real
    ensures r.selectedLat == Some(invLat((p.topLeftY + ey as real) / MapSize(p.zoom)))
    ensures r.pin == Some(Point(ex, ey))
    ensures r.(selectedLat := p.selectedLat, selectedLon := p.selectedLon, pin := p.pin) == p
  {
    var worldPx := p.topLeftX + ex as real;
    var worldPy := p.topLeftY + ey as real;
    var lon := LonOfWorldX(worldPx, p.zoom);
    WorldXRoundTrip(worldPx, p.zoom);
    p.(selectedLat := Some(invLat(worldPy / MapSize(p.zoom))), selectedLon := Some(lon),
       pin := Some(Point(ex, ey)))
  }

  /** `BtnUse_Click`: OK when both coordinates are chosen; otherwise only a
      message, and the dialog stays as it was. */
  function Use(p: Picker): (r: Picker)
    ensures r.result == OK <==> p.HasSelection() || p.result == OK
    ensures p.HasSelection() ==> r == p.(result := OK)
    ensures !p.HasSelection() ==> r == p
  {
    if !p.selectedLat.Some? || !p.selectedLon.Some? then p
    else p.(result := OK)
  }

  /** The Cancel button. */
  function CancelPicker(p: Picker): (r: Picker)
    ensures r.result == Cancel && r.(result := p.result) == p
  {
    p.(result := Cancel)
  }

  /** `SelectedLatitude`: the chosen latitude, or 0 when none. */
  function SelectedLatitude(p: Picker): (lat: real)
    ensures p.selectedLat.Some? ==> lat == p.selectedLat.value
    ensures p.selectedLat.None? ==> lat == 0.0
  {
    match p.selectedLat
    case Some(v) => v
    case None => 0.0
  }

  /** `SelectedLongitude`: the chosen longitude, or 0 when none. */
  function SelectedLongitude(p: Picker): (lon: real)
    ensures p.selectedLon.Some? ==> lon == p.selectedLon.value
    ensures p.selectedLon.None? ==> lon == 0.0
  {
    match p.selectedLon
    case Some(v) => v
    case None => 0.0
  }

  /** Clicking the middle of a freshly rendered picture (even size, rendered
      at the dialog's zoom) selects the centre longitude exactly. */
  lemma CentreClickRecoversLongitude(p: Picker, lat: real, lon: real, mercY: real -> real, invLat: real -> real)
    requires p.width > 0 && p.height > 0 && p.width % 2 == 0
    ensures Click(Generate(p, lat, lon, p.zoom, mercY), p.width / 2, p.height / 2, invLat).selectedLon == Some(lon)
  {
    var g := Generate(p, lat, lon, p.zoom, mercY);
    var r := Click(g, p.width / 2, p.height / 2, invLat);
    assert WorldX(r.selectedLon.value, p.zoom) == WorldX(lon, p.zoom);
    LonRoundTrip(r.selectedLon.value, p.zoom);
    LonRoundTrip(lon, p.zoom);
  }

  /** The longitude selected by a click is the one whose world column is the
      clicked one, so the pin and the selection agree: rendering centred on
      the selected longitude puts it under the middle of the picture. */
  lemma ClickThenRecentre(p: Picker, ex: int, ey: int, lat: real, mercY: real -> real, invLat: real -> real)
    requires p.width > 0 && p.height > 0
    ensures var c := Click(p, ex, ey, invLat);
            Generate(c, lat, c.selectedLon.value, p.zoom, mercY).topLeftX + p.width as real / 2.0 == p.topLeftX + ex as real
  {
  }

  /** Rendering again after a click discards the selection, so "Use" does
      not close the dialog until the user clicks again. */
  lemma RegenerateNeedsNewClick(p: Picker, ex: int, ey: int, lat: real, lon: real, z: Zoom,
                                mercY: real -> real, invLat: real -> real)
    requires p.width > 0 && p.height > 0
    ensures var c := Click(p, ex, ey, invLat);
            var g := Generate(c, lat, lon, z, mercY);
            Use(c).result == OK && Use(g) == g
  {
  }

  /** The dialog closes with OK only after a click since the last render. */
  lemma OkNeedsClick(p: Picker, mercY: real -> real)
    requires p.width > 0 && p.height > 0 && p.result == Pending
    ensures Use(Loaded(p, mercY)).result == Pending
  {
    var g := Loaded(p, mercY);
    assert !g.HasSelection();
  }
}
