/** The tile pyramid: how many tiles a zoom level has, what each of them shows, and how
    many levels an image needs. Sizes are 32-bit. */
module Tiles {
  import opened Wrappers

  const U32_MAX: nat := 0xFFFF_FFFF

  function Pow2(n: nat): (p: nat)
    ensures p >= 1
  {
    if n == 0 then 1 else 2 * Pow2(n - 1)
  }

  function Min(a: nat, b: nat): nat {
    if a < b then a else b
  }

  function Max(a: nat, b: nat): nat {
    if a > b then a else b
  }

  /** Integer division, and what is needed of it. */
  function Quotient(a: nat, b: nat): (q: nat)
    requires b > 0
    ensures q <= a
    ensures q * b <= a < q * b + b
  {
    Division(a, b);
    a / b
  }

  lemma {:induction false} Division(a: nat, b: nat)
    requires b > 0
    ensures a / b <= a && a / b * b <= a < a / b * b + b
  {
    var q, r := a / b, a % b;
    assert a == q * b + r;
    Products(1, b, q);
  }

  /** What is needed of products. */
  lemma {:induction false} Products(a: nat, b: nat, c: nat)
    ensures a <= b ==> a * c <= b * c
    ensures a < b ==> a * c + c <= b * c
    ensures (a + 1) * c == a * c + c
    ensures a * c == c * a
  {
    if a < b {
      var k := b - a - 1;
      assert b * c == a * c + c + k * c;
    }
  }

  function CeilDiv(a: nat, b: nat): nat
    requires b > 0
  {
    if Quotient(a, b) * b == a then Quotient(a, b) else Quotient(a, b) + 1
  }

  function SaturatingSub(a: nat, b: nat): nat {
    if a >= b then a - b else 0
  }

  /** Columns and rows. The shift by more than 31 bits is an overflow in the program. */
  function TilesAtZoom(width: nat, height: nat, tileSize: nat, zoom: nat, maxZoom: nat): (nat, nat)
    requires tileSize >= 1 && maxZoom - Min(zoom, maxZoom) < 32
  {
    var scale := Pow2(maxZoom - Min(zoom, maxZoom));
    (Max(CeilDiv(Quotient(width, scale), tileSize), 1), Max(CeilDiv(Quotient(height, scale), tileSize), 1))
  }

  /** The ceiling of the exact base-2 logarithm of `n / d`, counted by doubling. */
  function CeilLog2(n: nat, d: nat): nat
    requires d > 0
    decreases SaturatingSub(n, d)
  {
    if n <= d then 0 else 1 + CeilLog2(n, 2 * d)
  }

  function CalculateMaxZoom(width: nat, height: nat, tileSize: nat): nat
    requires tileSize >= 1
  {
    if Max(width, height) <= tileSize then 0 else CeilLog2(Max(width, height), tileSize)
  }

  /** A part of the scaled image. */
  datatype Crop = Crop(x: nat, y: nat, w: nat, h: nat)

  function ScaledSize(full: nat, scale: nat): nat
    requires scale > 0
  {
    Max(Quotient(full, scale), 1)
  }

  function CropOf(scaledW: nat, scaledH: nat, tileSize: nat, x: nat, y: nat): Crop {
    Crop(x * tileSize, y * tileSize,
         Min(tileSize, SaturatingSub(scaledW, x * tileSize)),
         Min(tileSize, SaturatingSub(scaledH, y * tileSize)))
  }

  type Level = map<(nat, nat), Crop>

  /** The tiles before column `x` of row `y`, in the order in which they are listed. */
  predicate Before(at: (nat, nat), cols: nat, x: nat, y: nat) {
    at.0 < cols && (at.1 < y || (at.1 == y && at.0 < x))
  }

  ghost predicate Written(tiles: Level, w: nat, h: nat, tileSize: nat, cols: nat, x: nat, y: nat) {
    && (forall at :: at in tiles <==> Before(at, cols, x, y))
    && (forall at :: at in tiles ==> tiles[at] == CropOf(w, h, tileSize, at.0, at.1))
  }

  /** Writes the tiles of one level: every column and row has one, and no tile is left out for being
      empty. */
  method GenerateZoomLevel(width: nat, height: nat, tileSize: nat, zoom: nat, maxZoom: nat) returns (tiles: Level)
    requires tileSize >= 1 && zoom <= maxZoom && maxZoom - zoom < 32
    ensures
      var scale := Pow2(maxZoom - zoom);
      var (cols, rows) := TilesAtZoom(width, height, tileSize, zoom, maxZoom);
      Written(tiles, ScaledSize(width, scale), ScaledSize(height, scale), tileSize, cols, 0, rows)
  {
    var scale := Pow2(maxZoom - zoom);
    var scaledW, scaledH := ScaledSize(width, scale), ScaledSize(height, scale);
    var (cols, rows) := TilesAtZoom(width, height, tileSize, zoom, maxZoom);
    tiles := map[];
    for y := 0 to rows
      invariant Written(tiles, scaledW, scaledH, tileSize, cols, 0, y)
    {
      for x := 0 to cols
        invariant Written(tiles, scaledW, scaledH, tileSize, cols, x, y)
      {
        CropIsNotEmpty(Quotient(width, scale), tileSize, x);
        CropIsNotEmpty(Quotient(height, scale), tileSize, y);
        var crop := CropOf(scaledW, scaledH, tileSize, x, y);
        if crop.w == 0 || crop.h == 0 {
          continue;
        }
        tiles := tiles[(x, y) := crop];
      }
    }
  }

  function TopZoom(width: nat, height: nat, tileSize: nat, maxZoom: Option<nat>): nat
    requires tileSize >= 1
  {
    if maxZoom.Some? then maxZoom.value else CalculateMaxZoom(width, height, tileSize)
  }

  ghost predicate IsLevel(level: Level, width: nat, height: nat, tileSize: nat, zoom: nat, maxZoom: nat)
    requires tileSize >= 1 && zoom <= maxZoom && maxZoom - zoom < 32
  {
    var scale := Pow2(maxZoom - zoom);
    var (cols, rows) := TilesAtZoom(width, height, tileSize, zoom, maxZoom);
    Written(level, ScaledSize(width, scale), ScaledSize(height, scale), tileSize, cols, 0, rows)
  }

  /** All levels from the lowest, or nothing when a shift overflows; that is exactly when the top zoom,
      given or computed, is 32 or more. */
  method GenerateTilePyramid(width: nat, height: nat, tileSize: nat, maxZoom: Option<nat>) returns (pyramid: Option<seq<Level>>)
    requires tileSize >= 1
    ensures pyramid.None? <==> TopZoom(width, height, tileSize, maxZoom) >= 32
    ensures pyramid.Some? ==>
      var top := TopZoom(width, height, tileSize, maxZoom);
      && |pyramid.value| == top + 1
      && forall zoom :: 0 <= zoom <= top ==> IsLevel(pyramid.value[zoom], width, height, tileSize, zoom, top)
  {
    var top := if maxZoom.Some? then maxZoom.value else CalculateMaxZoom(width, height, tileSize);
    var levels: seq<Level> := [];
    for zoom := 0 to top + 1
      invariant |levels| == zoom && (zoom > 0 ==> top < 32)
      invariant forall z :: 0 <= z < zoom ==> IsLevel(levels[z], width, height, tileSize, z, top)
    {
      if top - zoom >= 32 {
        return None;
      }
      var level := GenerateZoomLevel(width, height, tileSize, zoom, top);
      levels := levels + [level];
    }
    pyramid := Some(levels);
  }

  // ----------------------------------------------------------------- One axis

  /** Along one axis: the tiles of a scaled size `size`, at least one. */
  function Count(size: nat, tileSize: nat): nat
    requires tileSize >= 1
  {
    Max(CeilDiv(size, tileSize), 1)
  }

  function Start(k: nat, tileSize: nat): nat {
    k * tileSize
  }

  function Extent(size: nat, tileSize: nat, k: nat): nat {
    Min(tileSize, SaturatingSub(Max(size, 1), k * tileSize))
  }

  lemma {:induction false} LastTileStarts(size: nat, tileSize: nat, k: nat)
    requires tileSize >= 1
    ensures k < Count(size, tileSize) <==> k * tileSize < Max(size, 1)
  {
    var q := Quotient(size, tileSize);
    Products(k, q, tileSize);
    Products(q, k, tileSize);
    Products(0, k, tileSize);
  }

  lemma {:induction false} CropIsNotEmpty(size: nat, tileSize: nat, k: nat)
    requires tileSize >= 1 && k < Count(size, tileSize)
    ensures Extent(size, tileSize, k) >= 1
  {
    LastTileStarts(size, tileSize, k);
  }

  /** Each pixel column lies in the tile of its quotient, and in no other. */
  lemma {:induction false} OneTileOnAxis(size: nat, tileSize: nat, p: nat, k: nat)
    requires tileSize >= 1 && p < Max(size, 1)
    ensures Quotient(p, tileSize) < Count(size, tileSize)
    ensures k < Count(size, tileSize) ==>
      (Start(k, tileSize) <= p < Start(k, tileSize) + Extent(size, tileSize, k) <==> k == Quotient(p, tileSize))
  {
    var q := Quotient(p, tileSize);
    LastTileStarts(size, tileSize, q);
    Products(k, q, tileSize);
    Products(q, k, tileSize);
  }

  function TotalExtent(size: nat, tileSize: nat, n: nat): nat {
    if n == 0 then 0 else TotalExtent(size, tileSize, n - 1) + Extent(size, tileSize, n - 1)
  }

  lemma {:induction false} ExtentsAddUp(size: nat, tileSize: nat, n: nat)
    requires tileSize >= 1 && n <= Count(size, tileSize)
    ensures TotalExtent(size, tileSize, n) == Min(n * tileSize, Max(size, 1))
  {
    if n > 0 {
      ExtentsAddUp(size, tileSize, n - 1);
      LastTileStarts(size, tileSize, n - 1);
      Products(n - 1, n, tileSize);
    }
  }

  // ------------------------------------------------------------- Main theorems

  predicate Shows(crop: Crop, px: nat, py: nat) {
    crop.x <= px < crop.x + crop.w && crop.y <= py < crop.y + crop.h
  }

  /** A size is halved `steps` times, rounded down, and is at least one pixel. */
  ghost predicate IsScaled(full: nat, steps: nat, size: nat) {
    if full < Pow2(steps) then size == 1 else size * Pow2(steps) <= full < size * Pow2(steps) + Pow2(steps)
  }

  lemma {:induction false} ScaledExactly(full: nat, steps: nat, size: nat)
    ensures IsScaled(full, steps, size) <==> size == ScaledSize(full, Pow2(steps))
  {
    var scale := Pow2(steps);
    var q := Quotient(full, scale);
    Products(size, q, scale);
    Products(q, size, scale);
    Products(0, q, scale);
  }

  function CropAt(width: nat, height: nat, tileSize: nat, zoom: nat, maxZoom: nat, x: nat, y: nat): Crop
    requires zoom <= maxZoom
  {
    var scale := Pow2(maxZoom - zoom);
    CropOf(ScaledSize(width, scale), ScaledSize(height, scale), tileSize, x, y)
  }

  /** A stretch of an axis of this size shows `p` exactly when it is `p`'s own. */
  ghost predicate Cuts(start: nat, extent: nat, size: nat, p: nat, own: bool) {
    (start <= p < start + extent <==> own) && extent >= 1 && start + extent <= size <= U32_MAX
  }

  lemma {:induction false} AxisCuts(full: nat, steps: nat, size: nat, tileSize: nat, p: nat, k: nat)
    requires full <= U32_MAX && tileSize >= 1 && IsScaled(full, steps, size) && p < size
    ensures Quotient(p, tileSize) < Count(Quotient(full, Pow2(steps)), tileSize)
    ensures k < Count(Quotient(full, Pow2(steps)), tileSize) ==>
      Cuts(Start(k, tileSize), Extent(Quotient(full, Pow2(steps)), tileSize, k), size, p, k == Quotient(p, tileSize))
  {
    ScaledExactly(full, steps, size);
    var scaled := Quotient(full, Pow2(steps));
    OneTileOnAxis(scaled, tileSize, p, k);
    if k < Count(scaled, tileSize) {
      CropIsNotEmpty(scaled, tileSize, k);
    }
  }

  lemma {:induction false} CropAxes(width: nat, height: nat, tileSize: nat, zoom: nat, maxZoom: nat, x: nat, y: nat)
    requires zoom <= maxZoom
    ensures
      var scale := Pow2(maxZoom - zoom);
      CropAt(width, height, tileSize, zoom, maxZoom, x, y)
        == Crop(Start(x, tileSize), Start(y, tileSize),
                Extent(Quotient(width, scale), tileSize, x), Extent(Quotient(height, scale), tileSize, y))
  {
  }

  /** The crop shows this pixel exactly when it is the pixel's own, and lies within the image. */
  ghost predicate Fits(crop: Crop, w: nat, h: nat, px: nat, py: nat, own: bool) {
    && (Shows(crop, px, py) <==> own)
    && crop.w >= 1 && crop.h >= 1 && crop.x + crop.w <= w <= U32_MAX && crop.y + crop.h <= h <= U32_MAX
  }

  lemma {:induction false} CutsFit(crop: Crop, w: nat, h: nat, px: nat, py: nat, ownX: bool, ownY: bool)
    requires Cuts(crop.x, crop.w, w, px, ownX) && Cuts(crop.y, crop.h, h, py, ownY)
    ensures Fits(crop, w, h, px, py, ownX && ownY)
  {
  }

  /** At each zoom the crops partition the scaled image: each pixel is shown by exactly one tile, no
      crop is empty, none leaves the image, and no start overflows 32 bits. */
  lemma {:induction false} CropsPartition(width: nat, height: nat, tileSize: nat, zoom: nat, maxZoom: nat,
      w: nat, h: nat, px: nat, py: nat, x: nat, y: nat)
    requires width <= U32_MAX && height <= U32_MAX
    requires tileSize >= 1 && zoom <= maxZoom && maxZoom - zoom < 32
    requires IsScaled(width, maxZoom - zoom, w) && IsScaled(height, maxZoom - zoom, h) && px < w && py < h
    ensures
      var (cols, rows) := TilesAtZoom(width, height, tileSize, zoom, maxZoom);
      && Quotient(px, tileSize) < cols && Quotient(py, tileSize) < rows
      && (x < cols && y < rows ==>
            Fits(CropAt(width, height, tileSize, zoom, maxZoom, x, y), w, h, px, py,
                 x == Quotient(px, tileSize) && y == Quotient(py, tileSize)))
  {
    AxisCuts(width, maxZoom - zoom, w, tileSize, px, x);
    AxisCuts(height, maxZoom - zoom, h, tileSize, py, y);
    CropAxes(width, height, tileSize, zoom, maxZoom, x, y);
    var (cols, rows) := TilesAtZoom(width, height, tileSize, zoom, maxZoom);
    if x < cols && y < rows {
      CutsFit(CropAt(width, height, tileSize, zoom, maxZoom, x, y), w, h, px, py,
              x == Quotient(px, tileSize), y == Quotient(py, tileSize));
    }
  }

  /** The area of the first `n` rows of tiles. */
  function AreaOf(w: nat, h: nat, tileSize: nat, cols: nat, n: nat): nat {
    if n == 0 then 0 else AreaOf(w, h, tileSize, cols, n - 1) + RowArea(w, h, tileSize, cols, n - 1)
  }

  /** The area of the first `n` crops of row `y`. */
  function RowArea(w: nat, h: nat, tileSize: nat, n: nat, y: nat): nat {
    if n == 0 then 0
    else
      var crop := CropOf(w, h, tileSize, n - 1, y);
      RowArea(w, h, tileSize, n - 1, y) + crop.w * crop.h
  }

  lemma {:induction false} Distribute(a: nat, b: nat, c: nat)
    ensures (a + b) * c == a * c + b * c
    ensures c * (a + b) == c * a + c * b
  {
  }

  lemma {:induction false} RowAreaIs(sizeW: nat, sizeH: nat, tileSize: nat, n: nat, y: nat)
    ensures RowArea(Max(sizeW, 1), Max(sizeH, 1), tileSize, n, y)
         == TotalExtent(sizeW, tileSize, n) * Extent(sizeH, tileSize, y)
  {
    if n > 0 {
      RowAreaIs(sizeW, sizeH, tileSize, n - 1, y);
      Distribute(TotalExtent(sizeW, tileSize, n - 1), Extent(sizeW, tileSize, n - 1), Extent(sizeH, tileSize, y));
    }
  }

  lemma {:induction false} AreaIs(sizeW: nat, sizeH: nat, tileSize: nat, cols: nat, n: nat)
    ensures AreaOf(Max(sizeW, 1), Max(sizeH, 1), tileSize, cols, n)
         == TotalExtent(sizeW, tileSize, cols) * TotalExtent(sizeH, tileSize, n)
  {
    if n > 0 {
      AreaIs(sizeW, sizeH, tileSize, cols, n - 1);
      RowAreaIs(sizeW, sizeH, tileSize, cols, n - 1);
      Distribute(TotalExtent(sizeH, tileSize, n - 1), Extent(sizeH, tileSize, n - 1), TotalExtent(sizeW, tileSize, cols));
    }
  }

  /** The areas of all crops of a level add up to the area of the scaled image. */
  lemma {:induction false} AreasAddUp(width: nat, height: nat, tileSize: nat, zoom: nat, maxZoom: nat, fullW: nat, fullH: nat)
    requires tileSize >= 1 && zoom <= maxZoom && maxZoom - zoom < 32
    requires IsScaled(width, maxZoom - zoom, fullW) && IsScaled(height, maxZoom - zoom, fullH)
    ensures
      var (cols, rows) := TilesAtZoom(width, height, tileSize, zoom, maxZoom);
      AreaOf(fullW, fullH, tileSize, cols, rows) == fullW * fullH
  {
    ScaledExactly(width, maxZoom - zoom, fullW);
    ScaledExactly(height, maxZoom - zoom, fullH);
    var scale := Pow2(maxZoom - zoom);
    var w, h := Quotient(width, scale), Quotient(height, scale);
    AreaIs(w, h, tileSize, Count(w, tileSize), Count(h, tileSize));
    ExtentsAddUp(w, tileSize, Count(w, tileSize));
    ExtentsAddUp(h, tileSize, Count(h, tileSize));
    LastTileStarts(w, tileSize, Count(w, tileSize));
    LastTileStarts(h, tileSize, Count(h, tileSize));
  }

  lemma {:induction false} CeilLog2IsLeast(n: nat, d: nat, z: nat)
    requires d > 0
    ensures n <= d * Pow2(z) <==> CeilLog2(n, d) <= z
    decreases SaturatingSub(n, d)
  {
    assert d * Pow2(0) == d;
    if n <= d {
      Products(1, Pow2(z), d);
    } else if z > 0 {
      CeilLog2IsLeast(n, 2 * d, z - 1);
      Halve(d, Pow2(z - 1));
    }
  }

  lemma {:induction false} Halve(d: nat, p: nat)
    ensures 2 * d * p == d * (2 * p)
  {
  }

  /** The number of levels is the least `z` for which the image fits in `tileSize * 2^z`. */
  lemma {:induction false} MaxZoomIsLeast(width: nat, height: nat, tileSize: nat, z: nat)
    requires tileSize >= 1
    ensures Max(width, height) <= tileSize * Pow2(z) <==> CalculateMaxZoom(width, height, tileSize) <= z
  {
    CeilLog2IsLeast(Max(width, height), tileSize, z);
    if Max(width, height) <= tileSize {
      Products(1, Pow2(z), tileSize);
    }
  }

  lemma {:induction false} SmallPowers()
    ensures Pow2(7) == 128 && Pow2(8) == 256
  {
    assert Pow2(4) == 16;
    Pow2Adds(4, 3);
    Pow2Adds(4, 4);
  }

  lemma {:induction false} Powers()
    ensures Pow2(31) == 0x8000_0000 && Pow2(32) == 0x1_0000_0000
  {
    SmallPowers();
    Pow2Adds(8, 8);
    Pow2Adds(8, 7);
    Pow2Adds(16, 15);
    Pow2Adds(16, 16);
  }

  /** For 32-bit sizes there are at most 32 levels above the lowest; the shift of the lowest level
      overflows exactly when the image is more than 2^31 tiles long. */
  lemma {:induction false} ShiftOverflowsIff(width: nat, height: nat, tileSize: nat)
    requires width <= U32_MAX && height <= U32_MAX && tileSize >= 1
    ensures CalculateMaxZoom(width, height, tileSize) <= 32
    ensures CalculateMaxZoom(width, height, tileSize) == 32 <==> Max(width, height) > tileSize * 0x8000_0000
  {
    Powers();
    MaxZoomIsLeast(width, height, tileSize, 31);
    MaxZoomIsLeast(width, height, tileSize, 32);
    Products(1, tileSize, Pow2(32));
  }

  lemma {:induction false} Pow2Adds(a: nat, b: nat)
    ensures Pow2(a + b) == Pow2(a) * Pow2(b)
  {
    if b > 0 {
      Pow2Adds(a, b - 1);
      assert Pow2(a) * Pow2(b) == 2 * (Pow2(a) * Pow2(b - 1));
    }
  }

  /** For any top zoom that does not overflow: zoom 0 is a single tile exactly when halving that often
      leaves no more than a tile, the part that the division drops included. */
  lemma {:induction false} LowestIsOneTileIff(width: nat, height: nat, tileSize: nat, maxZoom: nat)
    requires tileSize >= 1 && maxZoom < 32
    ensures TilesAtZoom(width, height, tileSize, 0, maxZoom) == (1, 1)
       <==> Max(width, height) < (tileSize + 1) * Pow2(maxZoom)
  {
    OneTileIff(width, tileSize, Pow2(maxZoom));
    OneTileIff(height, tileSize, Pow2(maxZoom));
  }

  lemma {:induction false} OneTileIff(size: nat, tileSize: nat, scale: nat)
    requires tileSize >= 1 && scale >= 1
    ensures Count(Quotient(size, scale), tileSize) == 1 <==> size < (tileSize + 1) * scale
  {
    var q := Quotient(size, scale);
    LastTileStarts(q, tileSize, 1);
    Products(q, tileSize, scale);
    Products(tileSize, q, scale);
    Products(tileSize, 0, scale);
  }

  /** So zoom 0 is a single tile. */
  lemma {:induction false} LowestZoomIsOneTile(width: nat, height: nat, tileSize: nat)
    requires tileSize >= 1 && CalculateMaxZoom(width, height, tileSize) < 32
    ensures TilesAtZoom(width, height, tileSize, 0, CalculateMaxZoom(width, height, tileSize)) == (1, 1)
  {
    var z := CalculateMaxZoom(width, height, tileSize);
    MaxZoomIsLeast(width, height, tileSize, z);
    FitsOneTile(width, tileSize, Pow2(z));
    FitsOneTile(height, tileSize, Pow2(z));
  }

  lemma {:induction false} FitsOneTile(size: nat, tileSize: nat, scale: nat)
    requires tileSize >= 1 && scale >= 1 && size <= tileSize * scale
    ensures Count(Quotient(size, scale), tileSize) == 1
  {
    var q := Quotient(size, scale);
    Products(tileSize, q, scale);
    Products(0, tileSize, 1);
    LastTileStarts(q, tileSize, 1);
    LastTileStarts(q, tileSize, 0);
  }
}
