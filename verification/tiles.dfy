/** The slippy-map tile grid shared by the main map and the location picker:
    which 256-pixel tiles cover a viewport, how a tile column is wrapped round
    the antimeridian, and which rows are skipped because they lie beyond the
    poles. */
module Tiles {

  import opened Common

  const TileSize: int := 256
  const MinZoom: int := 0
  const MaxZoom: int := 19

  /** The zoom levels the application renders at. */
  type Zoom = z: int | 0 <= z <= 19

  function Pow2(n: nat): (r: nat)
    ensures r >= 1
  {
    if n == 0 then 1 else 2 * Pow2(n - 1)
  }

  /** `(int)Math.Pow(2, zoom)`: the number of tiles along each axis. */
  function TileCount(z: Zoom): int {
    Pow2(z)
  }

  /** C#'s `%` operator, which truncates toward zero, so the remainder takes
      the sign of the dividend (Dafny's `%` never yields a negative value). */
  function CsRem(a: int, b: int): (r: int)
    requires b > 0
    ensures a >= 0 ==> 0 <= r < b
    ensures a < 0 ==> -b < r <= 0
    ensures r % b == a % b
  {
    if a >= 0 then a % b
    else
      var q := (-a) / b;
      assert -a == q * b + (-a) % b;
      ModAddMultiple(a, b, q);
      -((-a) % b)
  }

  /** The column index requested from the tile server for raw column `tx`:
      negative columns are lifted with `(tx % n + n) % n`, columns past the
      last one are reduced with `tx % n`, where `%` is C#'s. */
  function WrapColumn(tx: int, count: int): (w: int)
    requires count > 0
    ensures 0 <= w < count
    ensures w == tx % count
    ensures 0 <= tx < count ==> w == tx
  {
    var lifted := if tx < 0 then CsRem(CsRem(tx, count) + count, count) else tx;
    ModAddMultiple(CsRem(tx, count), count, 1);
    var w := if lifted >= count then CsRem(lifted, count) else lifted;
    DivModUnique(w, count, 0, w);
    w
  }

  /** `(int)Math.Floor(p / 256)`: the tile index holding world pixel `p`. */
  function TileOf(p: real): int {
    (p / TileSize as real).Floor
  }

  lemma TileOfMonotonic(p: real, q: real)
    requires p <= q
    ensures TileOf(p) <= TileOf(q)
  {
  }

  /** An inclusive range of tile indices on one axis. */
  datatype TileSpan = TileSpan(first: int, last: int)

  /** The inclusive tile range `floor(start/256) .. floor((start+extent)/256)`
      computed for a viewport whose first world pixel on this axis is `start`. */
  function CoveringSpan(start: real, extent: int): (s: TileSpan)
    requires extent >= 0
    ensures s.first <= s.last
    ensures forall p: real :: start <= p <= start + extent as real ==> s.first <= TileOf(p) <= s.last
  {
    TileOfMonotonic(start, start + extent as real);
    TileSpan(TileOf(start), TileOf(start + extent as real))
  }

  /** One tile fetch: `column` is the raw column (where the tile is drawn),
      `x` the wrapped column and `y` the row sent to the tile server. */
  datatype TileRequest = TileRequest(zoom: Zoom, column: int, x: int, y: int)

  function Request(z: Zoom, tx: int, ty: int): TileRequest {
    TileRequest(z, tx, WrapColumn(tx, TileCount(z)), ty)
  }

  /** Row `ty` exists at zoom `z`; other rows lie beyond the poles. */
  predicate RowExists(z: Zoom, ty: int) {
    0 <= ty < TileCount(z)
  }

  /** A request the tile server can answer: both indices on the grid, and the
      wrapped column congruent to the raw one. */
  predicate ServerValid(t: TileRequest) {
    0 <= t.x < TileCount(t.zoom) && 0 <= t.y < TileCount(t.zoom) &&
    t.x % TileCount(t.zoom) == t.column % TileCount(t.zoom)
  }

  /** Tile `a` is fetched before tile `b` (columns outer, rows inner). */
  predicate FetchedBefore(a: TileRequest, b: TileRequest) {
    a.column < b.column || (a.column == b.column && a.y < b.y)
  }

  /** The inner loop over rows `ty .. lastY` of column `tx`, skipping rows that
      do not exist. */
  function ColumnRequests(z: Zoom, tx: int, ty: int, lastY: int): (r: seq<TileRequest>)
    ensures ty > lastY ==> r == []
    ensures |r| <= Max(0, lastY - ty + 1)
    decreases lastY - ty
  {
    if ty > lastY then []
    else (if RowExists(z, ty) then [Request(z, tx, ty)] else []) + ColumnRequests(z, tx, ty + 1, lastY)
  }

  /** The outer loop over columns `tx .. lastX`. */
  function GridRequests(z: Zoom, tx: int, lastX: int, firstY: int, lastY: int): (r: seq<TileRequest>)
    ensures tx > lastX ==> r == []
    ensures |r| <= Max(0, lastX - tx + 1) * Max(0, lastY - firstY + 1)
    decreases lastX - tx
  {
    if tx > lastX then []
    else ColumnRequests(z, tx, firstY, lastY) + GridRequests(z, tx + 1, lastX, firstY, lastY)
  }

  lemma {:induction false} ColumnRequestsExact(z: Zoom, tx: int, ty: int, lastY: int)
    ensures forall t :: t in ColumnRequests(z, tx, ty, lastY) ==>
      t == Request(z, tx, t.y) && ty <= t.y <= lastY && RowExists(z, t.y)
    ensures forall y :: ty <= y <= lastY && RowExists(z, y) ==> Request(z, tx, y) in ColumnRequests(z, tx, ty, lastY)
    ensures forall i, j :: 0 <= i < j < |ColumnRequests(z, tx, ty, lastY)| ==>
      ColumnRequests(z, tx, ty, lastY)[i].y < ColumnRequests(z, tx, ty, lastY)[j].y
    decreases lastY - ty
  {
    if ty <= lastY {
      ColumnRequestsExact(z, tx, ty + 1, lastY);
    }
  }

  /** The nested loops request exactly the tiles `(tx, ty)` with `tx` and `ty`
      in the given inclusive ranges and `ty` an existing row. */
  lemma {:induction false} GridRequestsExact(z: Zoom, tx: int, lastX: int, firstY: int, lastY: int)
    ensures forall t :: t in GridRequests(z, tx, lastX, firstY, lastY) ==>
      t == Request(z, t.column, t.y) && tx <= t.column <= lastX && firstY <= t.y <= lastY && RowExists(z, t.y)
    ensures forall x, y :: tx <= x <= lastX && firstY <= y <= lastY && RowExists(z, y) ==>
      Request(z, x, y) in GridRequests(z, tx, lastX, firstY, lastY)
    decreases lastX - tx
  {
    if tx <= lastX {
      ColumnRequestsExact(z, tx, firstY, lastY);
      GridRequestsExact(z, tx + 1, lastX, firstY, lastY);
    }
  }

  /** Tiles are requested column by column, top to bottom inside a column,
      and no tile is requested twice. */
  lemma {:induction false} GridRequestsOrdered(z: Zoom, tx: int, lastX: int, firstY: int, lastY: int)
    ensures forall i, j :: 0 <= i < j < |GridRequests(z, tx, lastX, firstY, lastY)| ==>
      FetchedBefore(GridRequests(z, tx, lastX, firstY, lastY)[i], GridRequests(z, tx, lastX, firstY, lastY)[j])
    decreases lastX - tx
  {
    if tx <= lastX {
      var col := ColumnRequests(z, tx, firstY, lastY);
      var rest := GridRequests(z, tx + 1, lastX, firstY, lastY);
      var all := col + rest;
      ColumnRequestsExact(z, tx, firstY, lastY);
      GridRequestsExact(z, tx + 1, lastX, firstY, lastY);
      GridRequestsOrdered(z, tx + 1, lastX, firstY, lastY);
      forall i, j | 0 <= i < j < |all| ensures FetchedBefore(all[i], all[j]) {
        if j < |col| {
          assert all[i] == col[i] && all[j] == col[j];
          assert col[i] in col && col[j] in col;
        } else if i < |col| {
          assert all[i] == col[i] && all[j] == rest[j - |col|];
          assert col[i] in col && rest[j - |col|] in rest;
        } else {
          assert all[i] == rest[i - |col|] && all[j] == rest[j - |col|];
        }
      }
    }
  }

  /** Every tile fetch: the loops of the map renderer, from the covering
      ranges of a viewport whose top-left world pixel is `(left, top)`. */
  function PlanTiles(z: Zoom, left: real, top: real, width: int, height: int): (r: seq<TileRequest>)
    requires width >= 0 && height >= 0
    ensures forall t :: t in r ==> ServerValid(t) && t == Request(z, t.column, t.y)
    ensures forall t :: t in r ==>
      CoveringSpan(left, width).first <= t.column <= CoveringSpan(left, width).last &&
      CoveringSpan(top, height).first <= t.y <= CoveringSpan(top, height).last
    ensures forall px: real, py: real ::
      left <= px <= left + width as real && top <= py <= top + height as real && RowExists(z, TileOf(py)) ==>
      Request(z, TileOf(px), TileOf(py)) in r
    ensures forall i, j :: 0 <= i < j < |r| ==> FetchedBefore(r[i], r[j])
  {
    var xs := CoveringSpan(left, width);
    var ys := CoveringSpan(top, height);
    GridRequestsExact(z, xs.first, xs.last, ys.first, ys.last);
    GridRequestsOrdered(z, xs.first, xs.last, ys.first, ys.last);
    GridRequests(z, xs.first, xs.last, ys.first, ys.last)
  }
}
