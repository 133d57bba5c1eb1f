# RealEstateMap core in Dafny

RealEstateMap is a desktop application that keeps real-estate agencies,
each with a list of listings (apartments, rentable apartments and houses),
and shows them as markers on an OpenStreetMap tile map. This project models
the deterministic core of that application and proves properties of it:

- **Tile grid** (`tiles.dfy`, module `Tiles`). A viewport's top-left world
  pixel gives an inclusive range of 256-pixel tiles. Each column is wrapped
  modulo `2^zoom`, with C#'s truncating `%` written out as `CsRem`. Rows
  beyond the poles are skipped.
- **Projection** (`projection.dfy`, module `Projection`). This is the
  linear longitude half of spherical Mercator and its inverse. The latitude
  half is transcendental and is passed as a function parameter `mercY`.
- **Rectangles** (`geometry.dfy`, module `Geometry`). These follow the
  `System.Drawing.Rectangle` semantics the overlay relies on: `Contains` is
  half-open, `IsEmpty` means all four fields are zero, and `Intersect`
  returns `Empty` when the rectangles do not meet.
- **Listings and marker colours** (`listings.dfy`, module `Listings`). The
  listing class hierarchy is one tagged datatype. Each listing's marker
  style follows from whether it is rentable and whether it is rented.
- **Agency store** (`agencies.dfy`, module `Agencies`). This is
  `RealEstateAgency`: an ordered list in which no two addresses are equal
  under `OrdinalIgnoreCase`. It has the null-checked constructor,
  `AddProperty` and `RentProperty`.
- **Persistence mapping** (`persistence.dfy`, module `Persistence`). This
  is the translation between agencies and the flat records that
  `PersistenceService` serialises, in both directions.
- **Marker overlay and click index** (`overlay.dfy`, module `Overlay`).
  Each marker gets a hit box. Boxes are culled when off screen and clamped
  to the picture otherwise. The box-to-markers dictionary keeps .NET's
  insertion order. A click returns the distinct markers under it, in
  first-seen order.
- **Zoom fitter** (`fitter.dfy`, module `Fitter`). `ShowAgencyOnMap`
  takes a bounding box in normalised Mercator space, floors each span,
  clamps the zoom to `[0, 19]`, adds the +2 boost for a tight cluster, and
  centres on the box.
- **Main map** (`mainmap.dfy`, module `MainMap`). This is `Form1`: which
  view each action renders, `GenerateStaticMap` as tile paints plus marker
  glyphs plus the click index, `Math.Round` with ties to even, and the
  click dispatch (info, chooser, or nothing).
- **Location picker** (`picker.dfy`, module `MapPicker`). This is
  `MapPickerForm`: rendering, turning a click into latitude and longitude,
  and the selection state behind "Use selection".

Doubles are modelled as `real`: exact arithmetic, no NaN and no rounding.
Integers are unbounded. A listing's object identity, which the marker index
compares, is a marker `id`. Three things are not modelled but taken as
parameters:
- `mercY`: latitude to normalised Mercator row, including the clamp of
  `sin` to ±0.9999;
- `invLat`: `InverseMercatorLat`;
- `log2`: `Math.Log(x, 2)`.

The fetch of a tile is a parameter `fetched`. Lemmas that rely on a
property of `log2`, such as monotonicity or agreement with powers of two,
state it as a precondition.

## Model

| member | source | states |
|---|---|---|
| Tiles.CsRem | Form1.cs:387-388 | C#'s `%`: the remainder has the dividend's sign, its magnitude is below the divisor, and it is congruent to the dividend |
| Tiles.WrapColumn | Form1.cs:386-388 | the wrapped column lies in `[0, 2^z)`, is congruent to the raw column modulo `2^z`, and equals it when the raw column is already in range |
| Tiles.CoveringSpan | Form1.cs:375-378 | the inclusive range `floor(start/256)..floor((start+extent)/256)` is non-empty and holds the tile of every pixel of the viewport on that axis |
| Tiles.ColumnRequests | Form1.cs:384-389 | the row loop: nothing for an empty range, and at most one request per row; its exact contents are stated by `ColumnRequestsExact` |
| Tiles.GridRequests | Form1.cs:382-389 | the column loop: nothing for an empty range, and at most one request per column and row; its exact contents and order are stated by `GridRequestsExact` and `GridRequestsOrdered` |
| Tiles.ColumnRequestsExact | Form1.cs:384-389 | the row loop requests exactly the existing rows of the column, each once, in increasing order |
| Tiles.GridRequestsExact | Form1.cs:382-389 | the column-and-row loops request exactly the tiles of the range whose row exists, with wrapped columns |
| Tiles.GridRequestsOrdered | Form1.cs:382-389 | tiles are requested column by column and, within a column, row by row |
| Tiles.PlanTiles | Form1.cs:372-389 | every request is valid for the tile server (row in range, column wrapped and congruent); every pixel of the viewport whose row exists is covered; requests come in loop order |
| Projection.NormXRoundTrip | Form1.cs:275-312 | the normalised longitude `(lon+180)/360` and `x*360-180` are inverse to each other |
| Projection.WorldX | MapPickerForm.cs:198-201 | the `x` half of `LatLonToWorldPixels`; its meaning is stated by `WorldXEdges`, `LonRoundTrip` and `WorldXRoundTrip` |
| Projection.WorldY | MapPickerForm.cs:198-205 | the `y` half of `LatLonToWorldPixels`, the normalised Mercator row scaled by the world size; stated by `WorldYEdges` |
| Projection.LonOfWorldX | MapPickerForm.cs:151-153 | the click's longitude from its world column; stated by `LonOfWorldXEdges`, `LonRoundTrip` and `WorldXRoundTrip` |
| Projection.WorldXEdges | MapPickerForm.cs:198-201 | longitudes -180, 0 and 180 land on the world's left edge, middle and right edge |
| Projection.LonOfWorldXEdges | MapPickerForm.cs:151-153 | the world's left edge, middle and right edge read back as longitudes -180, 0 and 180 |
| Projection.WorldYEdges | MapPickerForm.cs:198-205 | a latitude whose normalised row is 0, 1/2 or 1 lands on the world's top edge, middle or bottom edge |
| Projection.NormXMonotonic | Form1.cs:275-283 | normalising preserves and reflects the order of longitudes |
| Projection.LonRoundTrip | MapPickerForm.cs:151-153 | the longitude read back from a longitude's world column is that longitude |
| Projection.WorldXRoundTrip | MapPickerForm.cs:198-201 | the world column of the longitude of a world column is that column |
| Projection.WrappedTileIgnoresTurns | Form1.cs:380-388 | adding whole turns of 360 degrees to a longitude does not change the wrapped tile column it falls in |
| Geometry.Intersect | Form1.cs:436 | a pixel is in the intersection exactly when it is in both rectangles; the result is `Empty` or lies inside both |
| Listings.NewRentableApartment | RentableApartment.cs:14-19 | a new rentable apartment is rentable and not rented, and every field (address, areas, value, coordinates, floor, elevator, rent) is the argument given |
| Listings.StyleOf | Form1.cs:482-502 | rented exactly for a rented rentable listing, available exactly for an unrented one, not-for-rent exactly for the others |
| Listings.MarkerColors | Form1.cs:482-502 | gray/dark-slate-gray exactly when rentable and rented, lime-green/dark-green exactly when rentable and free, dodger-blue/navy exactly when not rentable |
| Listings.PalettesDistinguishStyles | Form1.cs:482-502 | two markers have the same fill, or the same border, exactly when they have the same style |
| Agencies.SameAddressCharwise | RealEstateAgency.cs:24 | two addresses are equal ignoring case exactly when they have the same length and agree letter by letter after upper-casing |
| Agencies.NewAgency | RealEstateAgency.cs:15-18 | a null name is rejected; otherwise the agency has that name, no listings, and satisfies the address invariant |
| Agencies.AddProperty | RealEstateAgency.cs:20-30 | null is rejected; the add fails exactly when an address equal ignoring case is present, and then nothing changes; otherwise the listing is appended after the unchanged old ones; the invariant is preserved |
| Agencies.FindByAddress | RealEstateAgency.cs:36 | `List.Find`: the first listing whose address matches ignoring case, or none exactly when none matches |
| Agencies.RentProperty | RealEstateAgency.cs:34-51 | true exactly when the found listing is a rentable apartment not yet rented; then only its flag is set; otherwise nothing changes; the invariant is preserved |
| Agencies.RentTwice | RealEstateAgency.cs:43-47 | renting the same address a second time returns false and changes nothing |
| Agencies.FindIsOnlyMatch | RealEstateAgency.cs:24-36 | in a valid agency the listing `RentProperty` acts on is the only one with that address |
| Persistence.PropertyToDto | PersistenceService.cs:101-137 | the common fields are copied; the tag is `RentableApartment`, `Apartment` or `House` exactly for the matching kind, the subclass being tested first; a rentable apartment writes floor, elevator, rent and rented flag, an apartment writes floor and elevator, a house writes its outdoor area, and every other optional field is null |
| Persistence.CreateApartment | PersistenceService.cs:169-174 | an apartment with the record's address, indoor area, value and coordinates; a missing floor is 0 and a missing elevator flag is false |
| Persistence.CreateRentableApartment | PersistenceService.cs:176-185 | a rentable apartment with the record's address, indoor area, value and coordinates; a missing floor, elevator flag or rent take defaults; it is rented exactly when the record says `true` |
| Persistence.CreateHouse | PersistenceService.cs:187-191 | a house with the record's address, indoor area, value and coordinates; a missing outdoor area is 0 |
| Persistence.DtoToProperty | PersistenceService.cs:158-167 | null exactly for a tag other than the three known ones; otherwise the kind named by the tag, with every common field copied, built by `CreateRentableApartment`, `CreateApartment` or `CreateHouse` for the tag, so their defaults for missing fields apply on load |
| Persistence.PropertyRoundTrip | PersistenceService.cs:101-191 | a listing written to a record and read back is the same listing, for all three kinds, rented flag included |
| Persistence.PropertiesToDto | PersistenceService.cs:97 | one non-null record per listing, in order |
| Persistence.AgencyToDto | PersistenceService.cs:92-99 | the record carries the agency's name and a non-null list of its listings' records |
| Persistence.KnownPropertiesMembers | PersistenceService.cs:142-153 | null records and records with an unknown tag are skipped; every other record's listing is kept, and nothing else |
| Persistence.ReadRecord | PersistenceService.cs:144-153 | a null record is skipped, like one with an unknown tag; any other record is read by `MapDtoToProperty` |
| Persistence.KnownProperties | PersistenceService.cs:142-153 | the listings read from the records, never more than there are records; which records contribute is stated by `KnownPropertiesMembers` |
| Persistence.AddEach | PersistenceService.cs:142-154 | offering the listings to `AddProperty` one by one keeps the agency's name and its address invariant |
| Persistence.DtoToAgency | PersistenceService.cs:139-156 | a null name fails in the constructor; otherwise a null listing list fails in the loop; otherwise the agency has the record's name and satisfies the invariant |
| Persistence.LoadAgencies | PersistenceService.cs:45-53 | a null document gives no agencies; when every record is present with a name and a list, one agency per record; a null record, name or list sends the load to its catch, which returns no agencies |
| Persistence.FirstByAddressCovers | PersistenceService.cs:142-154 | every address of the records is represented among the first occurrences |
| Persistence.AddEachKeepsFirst | PersistenceService.cs:142-154 | loading keeps exactly the first listing of every address, in order; later duplicates are skipped |
| Persistence.FirstByAddressOfUnique | RealEstateAgency.cs:24-29 | a list whose addresses are already unique loses nothing |
| Persistence.DtoToAgencyKeepsFirst | PersistenceService.cs:139-156 | a loaded agency holds the first listing of each address among the non-null records with a known tag, in order |
| Persistence.KnownPropertiesRoundTrip | PersistenceService.cs:97-148 | reading back the records of a list of listings gives that list |
| Persistence.AgencyRoundTrip | PersistenceService.cs:92-156 | saving a valid agency and loading it back gives the same name and the same listings in the same order |
| Overlay.ClampedBox | Form1.cs:429-438 | no rectangle exactly when the box is culled or clamps to `Empty`; otherwise the rectangle lies in the picture and in the hit box, and holds exactly the pixels of both |
| Overlay.KeyPosition | Form1.cs:439 | the position of the first entry with that rectangle, or none exactly when the key is absent |
| Overlay.Lookup | Form1.cs:439 | an absent key has no markers; with distinct keys, the list of the one entry with that rectangle |
| Overlay.Insert | Form1.cs:439-447 | the key's list gains the marker only if it is not already there; a new key goes at the end; other keys' lists and all key positions are unchanged; keys stay distinct |
| Overlay.IdsWithBox | Form1.cs:422-438 | a marker is listed exactly when some drawn marker with that identity clamps to that rectangle |
| Overlay.BuildIndex | Form1.cs:436-448 | the marker loop filing clamped boxes into an index cleared first: empty for no markers, and never more regions than markers; its contents are stated by `BuildIndexWellFormed`, `BuildIndexLookup` and `BuildIndexExact` |
| Overlay.BuildIndexWellFormed | Form1.cs:361-449 | the index rebuilt from empty has distinct keys and no empty list |
| Overlay.BuildIndexLookup | Form1.cs:361-449 | the list under a rectangle is the markers clamped to it, without duplicates, in drawing order |
| Overlay.BuildIndexExact | Form1.cs:361-449 | as above, and a rectangle is a key exactly when some marker clamps to it |
| Overlay.Matches | Form1.cs:519-526 | a marker is collected exactly when it is listed under some rectangle containing the click |
| Overlay.Query | Form1.cs:519-528 | the collected markers without duplicates, the same set, in first-seen order |
| Overlay.HitTestExact | Form1.cs:419-528 | on a freshly built index, a click finds a marker exactly when that marker's clamped box contains the click |
| Fitter.NormalizeAll | Form1.cs:273-278 | each listing's normalised position, in order |
| Fitter.Bounds | Form1.cs:270-284 | the running min/max box contains every point, and each of its four bounds is attained by some point |
| Fitter.SpanX | Form1.cs:287 | the horizontal span is at least `1e-9` and at least the raw span |
| Fitter.SpanY | Form1.cs:288 | the vertical span is at least `1e-9` and at least the raw span |
| Fitter.ContinuousZoom | Form1.cs:291-297 | `Math.Min(zoomX, zoomY)`, not finite (here: absent) exactly when a picture dimension is not positive |
| Fitter.ContinuousZoomIsMin | Form1.cs:291-295 | the continuous zoom is at most each axis zoom and equal to one of them |
| Fitter.ClampZoom | Form1.cs:300 | the zoom lies in `[0, 19]`; an in-range zoom is unchanged, one above 19 becomes 19 and one below 0 becomes 0 |
| Fitter.FitZoom | Form1.cs:294-300 | 19 when the continuous zoom is not finite or is at least 19, 0 when it is negative, and its floor otherwise |
| Fitter.ChosenZoom | Form1.cs:291-306 | the final zoom lies in `[0, 19]`; it exceeds the fitted zoom only for a box tight on both axes, by at most 2, and then it is the fitted zoom plus 2 or 19 |
| Fitter.Center | Form1.cs:309-310 | the centre lies in the box, equally far from both bounds on each axis |
| Fitter.ChosenZoomMonotonic | Form1.cs:287-306 | for a monotone `log2`, framing a larger box never gives a higher zoom |
| Fitter.FitZoomFits | Form1.cs:287-300 | for an exact `log2`, unless clamped at 0, both spans fit the picture at the fitted zoom |
| Fitter.FitZoomIsLargest | Form1.cs:287-300 | for an exact `log2`, unless clamped, one zoom level more makes some span overflow the picture |
| Fitter.AxisFits | Form1.cs:291-292 | a zoom whose tile count is at most the axis ratio draws the span no wider than the picture |
| Fitter.AxisOverflows | Form1.cs:291-292 | a zoom whose tile count exceeds the axis ratio makes the span wider than the picture |
| Fitter.MinLon | Form1.cs:275-280 | the smallest longitude of the listings, attained by one of them |
| Fitter.MaxLon | Form1.cs:275-281 | the largest longitude of the listings, attained by one of them |
| Fitter.BoundsMatchLongitudes | Form1.cs:275-281 | the box's horizontal bounds are the normalised extreme longitudes |
| Fitter.Frame | Form1.cs:255-315 | no listings give the default view at zoom 15; otherwise the centre longitude is the midpoint of the extreme longitudes, the centre latitude is `invLat` of the box's vertical midpoint, and the zoom is the chosen zoom of the listings' box |
| Fitter.FrameCenter | Form1.cs:309-312 | the centre of the listings' box: its longitude is the midpoint of the extreme longitudes, and its row is the box's vertical midpoint |
| Fitter.FrameZoomMonotonic | Form1.cs:270-306 | for a monotone `log2`, adding listings never makes the framed map zoom in further |
| MainMap.RoundHalfEven | Form1.cs:426-427 | `Math.Round`: within one half of the value, and the even neighbour on a tie |
| MainMap.RoundNearest | Form1.cs:426-427 | an integer strictly closer than one half is the rounded value |
| MainMap.RoundWhole | Form1.cs:426-427 | whole numbers round to themselves |
| MainMap.TopLeft | Form1.cs:369-373 | the top-left world pixel lies half a picture left of and above the centre's world pixel |
| MainMap.ScreenPoint | Form1.cs:424-427 | a marker's pixel is within one half of its world pixel less the top-left corner, on each axis |
| MainMap.CentreDrawnInMiddle | Form1.cs:369-427 | a listing at the view's centre is drawn at the middle of an even-sized picture |
| MainMap.Place | Form1.cs:422-427 | every marker, in order, at its picture pixel |
| MainMap.TileCorner | Form1.cs:399-403 | a tile is drawn within one half pixel of its unwrapped world corner less the top-left corner |
| MainMap.PaintTiles | Form1.cs:393-415 | one square per planned tile, in order, the image exactly when the fetch succeeds and the gray fallback otherwise |
| MainMap.Glyphs | Form1.cs:422-434 | a glyph is drawn exactly for each marker that is not culled, at its pixel, in its listing's colours; one marker gives its glyph unless culled |
| MainMap.GlyphsConcat | Form1.cs:422-434 | markers are drawn in list order: the glyphs of two runs of markers are the first run's followed by the second's |
| MainMap.MarkersToDraw | Form1.cs:419 | the given markers when there are some, otherwise the selected agency's listings |
| MainMap.Render | Form1.cs:357-453 | every planned tile is painted in loop order at its rounded corner, fetched exactly when the download succeeds; glyphs are exactly the non-culled markers, in drawing order; the rebuilt index is well formed |
| MainMap.RenderedHitTest | Form1.cs:419-528 | a click on a rendered picture finds exactly the markers whose clamped box contains it, without duplicates |
| MainMap.ClickableIsDrawn | Form1.cs:429-438 | every marker filed in the index also has a glyph |
| MainMap.CornerMarkerNotClickable | Form1.cs:431-437 | a marker at pixel (-10, -10) survives culling and is drawn, but is not filed, so no click reaches it |
| MainMap.OnClick | Form1.cs:512-543 | nothing without an image or without a hit; info for the one marker when exactly one is hit; the chooser over all hit markers, deduplicated and in first-seen order, when more are |
| MainMap.ClickOnRendered | Form1.cs:419-533 | on a rendered picture, a click opens a listing's info exactly when some marker of that listing is under it and no other marker is |
| MainMap.SingletonExactly | Form1.cs:528-530 | a duplicate-free list is a singleton exactly when it holds one value and nothing else |
| MainMap.QueryOfRendered | Form1.cs:419-528 | `HitTestExact` for every marker at once |
| MainMap.ShowSingle | Form1.cs:203-208 | centred on the listing at zoom 17, with only its marker |
| MainMap.ShowAgency | Form1.cs:255-315 | no listings give the default view with the selected agency's markers; otherwise exactly those markers, centred on the midpoint of the extreme longitudes and on `invLat` of the box's vertical midpoint, at the chosen zoom of their box |
| MainMap.Properties | Form1.cs:422 | the listings of the markers, in order |
| MapPicker.NewPicker | MapPickerForm.cs:34-75 | nothing selected, no pin, nothing rendered, the result pending, and the given centre, zoom and size |
| MapPicker.DefaultPicker | MapPickerForm.cs:34-43 | the constructor's defaults (45.7580, 21.2355, zoom 15, 600 by 400) give a renderable dialog with nothing selected |
| MapPicker.Generate | MapPickerForm.cs:77-143 | the selection and pin are cleared; the top-left corner is half a picture from the centre's world pixel; the requested tiles are exactly the planned tiles of that corner and size, so each is valid, every pixel of an existing row is covered, and they come in loop order; the dialog's zoom is unchanged |
| MapPicker.Loaded | MapPickerForm.cs:73 | the first render is centred on the dialog's own centre at its own zoom, with nothing selected, no pin, and the dialog still open |
| MapPicker.Click | MapPickerForm.cs:145-163 | both coordinates are set; the selected longitude's world column is the top-left corner plus the click offset; the latitude is the inverse of the clicked row; the pin moves to the click; nothing else changes |
| MapPicker.Use | MapPickerForm.cs:187-196 | the result becomes OK exactly when both coordinates are present; otherwise nothing changes |
| MapPicker.CancelPicker | MapPickerForm.cs:68 | the result becomes Cancel and nothing else changes |
| MapPicker.SelectedLatitude | MapPickerForm.cs:31 | the selected latitude, or 0 when there is none |
| MapPicker.SelectedLongitude | MapPickerForm.cs:32 | the selected longitude, or 0 when there is none |
| MapPicker.CentreClickRecoversLongitude | MapPickerForm.cs:89-153 | clicking the middle of an even-width picture rendered at the dialog's zoom selects the centre longitude exactly |
| MapPicker.ClickThenRecentre | MapPickerForm.cs:89-153 | re-centring on the selected longitude puts the clicked world column at the middle of the picture |
| MapPicker.RegenerateNeedsNewClick | MapPickerForm.cs:139-196 | after a click "Use" succeeds, but after a re-render it changes nothing |
| MapPicker.OkNeedsClick | MapPickerForm.cs:73-196 | right after loading, "Use" does not close the dialog |

## Left out

- HTTP tile download, image decoding and all GDI+ drawing are left out.
  Whether a tile's download and decode succeed is the parameter `fetched`.
  A glyph records the marker's pixel and colours, not the ellipses drawn.
- The async event handlers are left out: `LoadMap` status text, error
  message boxes, button enabling, and renders that overlap. The model
  treats each render as one atomic step.
- The latitude projection (`Sin`, `Log`, `Atan`, `Sinh`) and `Math.Log(x, 2)`
  are transcendental. They are the function parameters `mercY`, `invLat`
  and `log2`.
- Non-finite coordinates are not modelled: coordinates are reals. The
  listing form's parser accepts "NaN", "Infinity" and overflowing numbers,
  and for such a listing the source frames the agency at zoom 19 with no
  boost. In the model the continuous zoom is "not finite" only when a
  picture dimension is not positive, where `log2` meets zero or a negative
  number (`Fitter.ContinuousZoom`).
- JSON serialisation, the data-file path and file I/O in
  `LoadAsync`/`SaveAsync` are left out. Only the record mapping and the
  catch-all that empties the load are modelled.
- `AddPropertyForm`, `PropertyChooserForm` and the info and rent dialog in
  `ShowPropertyInfo` are left out, because they are modal UI.
  `ShowPropertyInfo` also sets the rented flag directly rather than through
  `RentProperty`.
- `ToString`, the unused `Distance` helper and the public `Address` setter
  are left out. That setter could bypass the agency invariant.
- Agencies.SameAddress: `OrdinalIgnoreCase` upper-cases all of Unicode,
  but the model folds only ASCII letters.
- Tiles.Zoom: zoom is restricted to `[0, 19]`, the only levels the
  application renders at. A zoom outside that range (possible only through
  the picker's constructor argument) is not modelled.
- MainMap.Render: requires a positive picture size. `new Bitmap` throws
  for a non-positive size, and that exception is not modelled.
- MapPicker.Generate: requires a positive picture size, for the same
  reason as `Render`. The picker's own tile painting (draw positions and
  the grey fallback) is GDI+ drawing and is not kept in the dialog's state;
  only the requested tiles are.
- Tiles.PlanTiles: integers are unbounded, so the 32-bit truncation in
  `(int)Math.Floor` of a huge world pixel is not modelled.
- Agencies.Agency: addresses, names and listings are never null inside an
  agency; only the constructor's name and `AddProperty`'s argument are
  optional. A listing with a null address is not modelled.
- MapPicker.Click: the click reads the dialog's `zoom` field, while
  `GenerateMapAsync` takes the zoom as an argument. The only call passes
  that same field, and `CentreClickRecoversLongitude` assumes that call.
- Persistence.DtoToProperty: a record's tag is a string, never JSON
  `null`. In the source a null tag takes the switch's default arm, exactly
  like an unknown tag, so the model loses no behaviour there.
