/** The linear half of the spherical-Mercator projection: longitude to world
    pixel and back. The latitude half (`sin`, `ln`, `atan`, `sinh`) is not
    modelled here; the modules that need it take it as a function parameter. */
module Projection {

  import opened Common
  import opened Tiles

  /** `256 * Math.Pow(2, zoom)`: the width of the world in pixels. */
  function MapSize(z: Zoom): real {
    TileSize as real * Pow2(z) as real
  }

  /** Longitude as a fraction of the world width, `(lon + 180) / 360`. */
  function NormX(lon: real): real {
    (lon + 180.0) / 360.0
  }

  /** The inverse of `NormX`, `x * 360 - 180`. */
  function LonOfNormX(x: real): real {
    x * 360.0 - 180.0
  }

  /** `(lon + 180) / 360 * mapSize`: the world-pixel column of a longitude. */
  function WorldX(lon: real, z: Zoom): real {
    NormX(lon) * MapSize(z)
  }

  /** `worldPx / mapSize * 360 - 180`: the longitude of a world-pixel column. */
  function LonOfWorldX(px: real, z: Zoom): real {
    px / MapSize(z) * 360.0 - 180.0
  }

  /** The world-pixel row of a latitude: `mercY` gives the normalised row
      (`0.5 - ln((1 + sin) / (1 - sin)) / 4pi` with `sin` clamped to
      +-0.9999), scaled by the world size. */
  function WorldY(lat: real, z: Zoom, mercY: real -> real): real {
    mercY(lat) * MapSize(z)
  }

  /** The antimeridian is at the two edges of the world, Greenwich in its
      middle. */
  lemma WorldXEdges(z: Zoom)
    ensures WorldX(-180.0, z) == 0.0 && WorldX(0.0, z) == MapSize(z) / 2.0 && WorldX(180.0, z) == MapSize(z)
  {
    ScaleOfFraction(NormX(-180.0), MapSize(z));
    ScaleOfFraction(NormX(0.0), MapSize(z));
    ScaleOfFraction(NormX(180.0), MapSize(z));
  }

  /** The edges of the world read back as the antimeridian, its middle as
      Greenwich. */
  lemma LonOfWorldXEdges(z: Zoom)
    ensures LonOfWorldX(0.0, z) == -180.0
    ensures LonOfWorldX(MapSize(z) / 2.0, z) == 0.0
    ensures LonOfWorldX(MapSize(z), z) == 180.0
  {
    MapSizePositive(z);
    var m := MapSize(z);
    LonOfFraction(0.0, m, LonOfWorldX(0.0, z));
    LonOfFraction(m / 2.0, m, LonOfWorldX(m / 2.0, z));
    LonOfFraction(m, m, LonOfWorldX(m, z));
  }

  /** A latitude on the normalised top edge, middle or bottom edge lands on
      the world's. */
  lemma WorldYEdges(z: Zoom, lat: real, mercY: real -> real)
    ensures mercY(lat) == 0.0 ==> WorldY(lat, z, mercY) == 0.0
    ensures mercY(lat) == 0.5 ==> WorldY(lat, z, mercY) == MapSize(z) / 2.0
    ensures mercY(lat) == 1.0 ==> WorldY(lat, z, mercY) == MapSize(z)
  {
    ScaleOfFraction(mercY(lat), MapSize(z));
  }

  /** `LonOfWorldX` at a column `px` of a world `m` wide, read as `lon`. */
  lemma LonOfFraction(px: real, m: real, lon: real)
    requires m > 0.0 && lon == px / m * 360.0 - 180.0
    ensures px == 0.0 ==> lon == -180.0
    ensures px == m / 2.0 ==> lon == 0.0
    ensures px == m ==> lon == 180.0
  {
    FractionOfScale(px, m);
  }

  /** The fractions 0, 1/2 and 1 of a size. */
  lemma ScaleOfFraction(f: real, m: real)
    ensures f == 0.0 ==> f * m == 0.0
    ensures f == 0.5 ==> f * m == m / 2.0
    ensures f == 1.0 ==> f * m == m
  {
  }

  /** The points 0, half and all of a positive size are its fractions 0,
      1/2 and 1. */
  lemma FractionOfScale(px: real, m: real)
    requires m > 0.0
    ensures px == 0.0 ==> px / m == 0.0
    ensures px == m / 2.0 ==> px / m == 0.5
    ensures px == m ==> px / m == 1.0
  {
  }

  lemma NormXRoundTrip(lon: real, x: real)
    ensures LonOfNormX(NormX(lon)) == lon
    ensures NormX(LonOfNormX(x)) == x
  {
  }

  /** `NormX` preserves order, so the extreme longitudes of a point set give
      the extreme normalised columns. */
  lemma NormXMonotonic(a: real, b: real)
    ensures a <= b <==> NormX(a) <= NormX(b)
  {
  }

  /** Longitude to world pixel and back is the identity on reals. */
  lemma {:induction false} LonRoundTrip(lon: real, z: Zoom)
    ensures LonOfWorldX(WorldX(lon, z), z) == lon
  {
    MapSizePositive(z);
    var px := WorldX(lon, z);
    LonRoundTripAt(lon, MapSize(z), px, LonOfWorldX(px, z));
  }

  /** World pixel to longitude and back is the identity on reals. */
  lemma {:induction false} WorldXRoundTrip(px: real, z: Zoom)
    ensures WorldX(LonOfWorldX(px, z), z) == px
  {
    MapSizePositive(z);
    var lon := LonOfWorldX(px, z);
    WorldXRoundTripAt(px, MapSize(z), lon, WorldX(lon, z));
  }

  /** `LonRoundTrip` for a world width `m`, with the column `px` and the
      longitude `r` read back. */
  lemma LonRoundTripAt(lon: real, m: real, px: real, r: real)
    requires m > 0.0 && px == NormX(lon) * m && r == px / m * 360.0 - 180.0
    ensures r == lon
  {
    UnscaleScaled(NormX(lon), m);
  }

  /** `WorldXRoundTrip` for a world width `m`, with the longitude `lon` and
      the column `q` written back. */
  lemma WorldXRoundTripAt(px: real, m: real, lon: real, q: real)
    requires m > 0.0 && lon == px / m * 360.0 - 180.0 && q == NormX(lon) * m
    ensures q == px
  {
    assert NormX(lon) == px / m;
    ScaleUnscaled(px, m);
  }

  /** A world is at least one tile wide. */
  lemma MapSizePositive(z: Zoom)
    ensures MapSize(z) >= TileSize as real
  {
  }

  lemma UnscaleScaled(x: real, m: real)
    requires m > 0.0
    ensures x * m / m == x
  {
  }

  lemma ScaleUnscaled(p: real, m: real)
    requires m > 0.0
    ensures p / m * m == p
  {
  }

  /** Adding whole turns to a longitude moves its world column by whole map
      widths, so the wrapped tile column requested for it does not change. */
  lemma {:induction false} WrappedTileIgnoresTurns(lon: real, k: int, z: Zoom)
    ensures WrapColumn(TileOf(WorldX(lon + 360.0 * k as real, z)), TileCount(z))
         == WrapColumn(TileOf(WorldX(lon, z)), TileCount(z))
  {
    var n := TileCount(z);
    var p := WorldX(lon, z);
    WorldXTurns(lon, k, z);
    TileOfShift(p, k * n);
    ModAddMultiple(TileOf(p), n, k);
  }

  /** `k` whole turns of longitude are `k` map widths of world pixels. */
  lemma WorldXTurns(lon: real, k: int, z: Zoom)
    ensures WorldX(lon + 360.0 * k as real, z) == WorldX(lon, z) + (k * TileCount(z) * TileSize) as real
  {
    var n := TileCount(z);
    assert NormX(lon + 360.0 * k as real) == NormX(lon) + k as real;
    ScaleSum(NormX(lon), k as real, MapSize(z));
    CastProduct(k, n * TileSize);
    assert MapSize(z) == (n * TileSize) as real;
  }

  lemma ScaleSum(x: real, y: real, m: real)
    ensures (x + y) * m == x * m + y * m
  {
  }

  lemma CastProduct(a: int, b: int)
    ensures (a * b) as real == a as real * b as real
  {
  }

  /** Moving a world pixel by `m` whole tiles moves its tile index by `m`. */
  lemma TileOfShift(p: real, m: int)
    ensures TileOf(p + (m * TileSize) as real) == TileOf(p) + m
  {
    assert (p + (m * TileSize) as real) / TileSize as real == p / TileSize as real + m as real;
  }
}
