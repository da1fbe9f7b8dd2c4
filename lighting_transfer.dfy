/** `apply_region_lighting_transfer` of ImageController: overlapping 32-pixel
    tiles, each matched to the reference image's statistics of the same tile,
    blended with a cosine falloff towards every tile's border. */
module LightingTransfer {
  import opened Pixels
  import opened ColorStats
  import opened ColorTransform

  const TileSize := 32
  const Overlap := 16

  /** `np.cos(t * np.pi)` for the normalised distances the weight uses, given
      as a parameter: strictly above -1 and at most 1 on [0, 1). */
  ghost predicate IsCosPi(cosPi: real -> real) {
    forall t :: 0.0 <= t < 1.0 ==> -1.0 < cosPi(t) <= 1.0
  }

  /** The source reads target pixels without a bounds check and sizes its
      buffers `(y2 - y1 + 1) x (x2 - x1 + 1)`: the region must not have a
      negative size, and whenever it yields a tile it must lie in the image. */
  predicate LightingRegion(target: array2<int>, region: Region) {
    region.x1 <= region.x2 + 1 && region.y1 <= region.y2 + 1
    && (region.x1 < region.x2 && region.y1 < region.y2 ==>
          0 <= region.x1 && region.x2 < target.Length1 && 0 <= region.y1 && region.y2 < target.Length0)
  }

  // ---------------------------------------------------------------------------
  // Tiles

  /** The tile at (tx, ty): 32 x 32, clipped at the region's right and bottom edges. */
  function TileRect(tx: int, ty: int, region: Region): (tile: Region)
    ensures region.x1 <= tx < region.x2 ==>
              region.x1 <= tile.x1 == tx < tile.x2 <= region.x2 && tile.x2 - tile.x1 < TileSize
    ensures region.y1 <= ty < region.y2 ==>
              region.y1 <= tile.y1 == ty < tile.y2 <= region.y2 && tile.y2 - tile.y1 < TileSize
  {
    Region(tx, ty, Min(tx + TileSize - 1, region.x2), Min(ty + TileSize - 1, region.y2))
  }

  // ---------------------------------------------------------------------------
  // Weights

  function RAbs(v: real): real {
    if v < 0.0 then -v else v
  }

  function RMax(a: real, b: real): real {
    if a >= b then a else b
  }

  /** The larger of the two distances from the clipped tile's centre, each
      divided by half the tile's extent in that direction. */
  function NormDist(tile: Region, x: int, y: int): (nd: real)
    requires tile.x1 <= tile.x2 && tile.y1 <= tile.y2
    ensures nd >= 0.0
  {
    var effectiveWidth, effectiveHeight := tile.x2 - tile.x1 + 1, tile.y2 - tile.y1 + 1;
    var maxDistX, maxDistY := effectiveWidth as real / 2.0, effectiveHeight as real / 2.0;
    var dx := RAbs(x as real - (tile.x1 as real + maxDistX));
    var dy := RAbs(y as real - (tile.y1 as real + maxDistY));
    RMax(dx / maxDistX, dy / maxDistY)
  }

  /** 0 from normalised distance 1 on, otherwise `0.5 * (1 + cos(pi * d))`. */
  function TileWeight(tile: Region, x: int, y: int, cosPi: real -> real): (w: real)
    requires tile.x1 <= tile.x2 && tile.y1 <= tile.y2
    ensures IsCosPi(cosPi) ==> 0.0 <= w <= 1.0
    ensures NormDist(tile, x, y) >= 1.0 ==> w == 0.0
  {
    var normDist := NormDist(tile, x, y);
    if normDist >= 1.0 then 0.0 else 0.5 * (1.0 + cosPi(normDist))
  }

  /** Along one axis of a tile spanning lo..hi, a coordinate v of the tile lies
      at a normalised distance below 1 from the centre exactly when it is not
      the first coordinate lo, where the distance is 1. */
  lemma AxisRatio(lo: int, hi: int, v: int)
    requires lo <= v <= hi
    ensures var m := (hi - lo + 1) as real / 2.0;
            RAbs(v as real - (lo as real + m)) / m < 1.0 <==> lo < v
  {
    var m := (hi - lo + 1) as real / 2.0;
    var d := RAbs(v as real - (lo as real + m));
    RatioBelowOne(d, m);
    if lo < v {
      assert d <= m - 1.0;
    } else {
      assert d == m;
    }
  }

  lemma RatioBelowOne(d: real, m: real)
    requires m > 0.0
    ensures d / m < 1.0 <==> d < m
  {
    var q := d / m;
    assert q * m == d;
    assert (1.0 - q) * m == m - d;
  }

  /** A pixel of the tile is strictly inside the unit normalised distance
      exactly when it is in neither the tile's first column nor its first row. */
  lemma NormDistBelowOne(tile: Region, x: int, y: int)
    requires tile.x1 <= tile.x2 && tile.y1 <= tile.y2 && InRegion(tile, x, y)
    ensures NormDist(tile, x, y) < 1.0 <==> tile.x1 < x && tile.y1 < y
  {
    AxisRatio(tile.x1, tile.x2, x);
    AxisRatio(tile.y1, tile.y2, y);
  }

  /** The weight a tile gives pixel (x, y): its falloff weight inside the tile
      and nothing outside. It is positive exactly on the tile without its first
      row and column. */
  function CoverWeight(tile: Region, x: int, y: int, cosPi: real -> real): (w: real)
    requires tile.x1 <= tile.x2 && tile.y1 <= tile.y2
    ensures !(tile.x1 < x <= tile.x2 && tile.y1 < y <= tile.y2) ==> w == 0.0
    ensures IsCosPi(cosPi) ==> 0.0 <= w <= 1.0 && (w > 0.0 <==> tile.x1 < x <= tile.x2 && tile.y1 < y <= tile.y2)
  {
    if InRegion(tile, x, y) then
      NormDistBelowOne(tile, x, y);
      TileWeight(tile, x, y, cosPi)
    else 0.0
  }

  // ---------------------------------------------------------------------------
  // What the tiles add up to at one pixel, in the loops' order

  /** One entry of `weight_buffer` with its three `color_buffer` entries. */
  datatype Acc = Acc(weight: real, r: real, g: real, b: real)

  const NoAcc := Acc(0.0, 0.0, 0.0, 0.0)

  function Add(a: Acc, b: Acc): Acc {
    Acc(a.weight + b.weight, a.r + b.r, a.g + b.g, a.b + b.b)
  }

  /** What a tile adds at a pixel it covers: the weight, and each new channel
      (transformed from the tile's statistics to the reference tile's, rounded
      and clamped) times the weight. */
  function PixelContribution(p: int, weight: real, tileStats: RgbColorStats, refStats: RgbColorStats): Acc {
    Acc(weight,
        Mul(TransformChannel(p, R, tileStats, refStats) as real, weight),
        Mul(TransformChannel(p, G, tileStats, refStats) as real, weight),
        Mul(TransformChannel(p, B, tileStats, refStats) as real, weight))
  }

  /** The contribution at (x, y) of a tile with the given statistics: nothing
      outside the tile. */
  function Contribution(target: array2<int>, tile: Region, tileStats: RgbColorStats, refStats: RgbColorStats,
                        cosPi: real -> real, x: int, y: int): Acc
    reads target
    requires tile.x1 <= tile.x2 && tile.y1 <= tile.y2
    requires InRegion(tile, x, y) ==> InImage(target, x, y)
  {
    if InRegion(tile, x, y)
    then PixelContribution(target[y, x], TileWeight(tile, x, y, cosPi), tileStats, refStats)
    else NoAcc
  }

  /** The statistics of an image over a tile. */
  function TileStats(image: array2<int>, tile: Region, sqrt: real -> real): RgbColorStats
    reads image
  {
    StatsOf(RegionPixels(image, tile), sqrt)
  }

  /** statsOf gives, at every tile of the region, the statistics of image over
      that tile. The first pass is stated over two such tables, one for the
      target image and one for the reference. */
  ghost predicate TileStatsTable(statsOf: Region -> RgbColorStats, image: array2<int>, region: Region,
                                 sqrt: real -> real)
    reads image
  {
    forall tx, ty {:trigger TileStats(image, TileRect(tx, ty, region), sqrt)} ::
      region.x1 <= tx < region.x2 && region.y1 <= ty < region.y2 ==>
        statsOf(TileRect(tx, ty, region)) == TileStats(image, TileRect(tx, ty, region), sqrt)
  }

  /** The first pass at (x, y) from the tile at (tx, ty) to the end of the
      tile row ty, in the loop's order: start plus every tile's contribution. */
  function RowFold(target: array2<int>, targetStatsOf: Region -> RgbColorStats,
                   referenceStatsOf: Region -> RgbColorStats, region: Region, cosPi: real -> real,
                   ty: int, tx: int, start: Acc, x: int, y: int): Acc
    reads target
    requires LightingRegion(target, region) && region.y1 <= ty < region.y2 && region.x1 <= tx
    decreases region.x2 - tx
  {
    if tx >= region.x2 then start
    else
      var tile := TileRect(tx, ty, region);
      RowFold(target, targetStatsOf, referenceStatsOf, region, cosPi, ty, tx + Overlap,
              Add(start, Contribution(target, tile, targetStatsOf(tile), referenceStatsOf(tile), cosPi, x, y)), x, y)
  }

  /** The first pass at (x, y) from the tile row ty to the last one. */
  function TilesFold(target: array2<int>, targetStatsOf: Region -> RgbColorStats,
                     referenceStatsOf: Region -> RgbColorStats, region: Region, cosPi: real -> real,
                     ty: int, start: Acc, x: int, y: int): Acc
    reads target
    requires LightingRegion(target, region) && region.y1 <= ty
    decreases region.y2 - ty
  {
    if ty >= region.y2 then start
    else
      TilesFold(target, targetStatsOf, referenceStatsOf, region, cosPi, ty + Overlap,
                RowFold(target, targetStatsOf, referenceStatsOf, region, cosPi, ty, region.x1, start, x, y), x, y)
  }

  /** Everything the first pass accumulates at (x, y), from zeroed buffers. */
  function TotalAcc(target: array2<int>, targetStatsOf: Region -> RgbColorStats,
                    referenceStatsOf: Region -> RgbColorStats, region: Region, cosPi: real -> real,
                    x: int, y: int): Acc
    reads target
    requires LightingRegion(target, region)
  {
    TilesFold(target, targetStatsOf, referenceStatsOf, region, cosPi, region.y1, NoAcc, x, y)
  }

  /** The second pass at a pixel with positive total weight: each weighted
      channel sum over the weight, rounded, clamped and packed. */
  function BlendedPixel(a: Acc): (q: int)
    requires a.weight > 0.0
    ensures 0 <= q < 0x100_0000
  {
    Pack(ClampRound(a.r / a.weight), ClampRound(a.g / a.weight), ClampRound(a.b / a.weight))
  }

  /** The pixel (x, y) of the result: blended inside the region where some
      weight landed, the target's own pixel everywhere else. */
  function TransferredPixel(target: array2<int>, targetStatsOf: Region -> RgbColorStats,
                            referenceStatsOf: Region -> RgbColorStats, region: Region, cosPi: real -> real,
                            x: int, y: int): int
    reads target
    requires LightingRegion(target, region) && InImage(target, x, y)
  {
    var a := TotalAcc(target, targetStatsOf, referenceStatsOf, region, cosPi, x, y);
    if InRegion(region, x, y) && a.weight > 0.0 then BlendedPixel(a) else target[y, x]
  }

  // ---------------------------------------------------------------------------
  // The two passes

  /** The weight and colour buffers have one entry per pixel of the region. */
  predicate Buffers(region: Region, weightBuffer: array2<real>, colorBuffer: array3<real>) {
    weightBuffer.Length0 == region.y2 - region.y1 + 1 && weightBuffer.Length1 == region.x2 - region.x1 + 1
    && colorBuffer.Length0 == weightBuffer.Length0 && colorBuffer.Length1 == weightBuffer.Length1
    && colorBuffer.Length2 == 3
  }

  ghost function BufferAt(weightBuffer: array2<real>, colorBuffer: array3<real>, i: int, j: int): Acc
    reads weightBuffer, colorBuffer
    requires 0 <= i < weightBuffer.Length0 && 0 <= j < weightBuffer.Length1
    requires colorBuffer.Length0 == weightBuffer.Length0 && colorBuffer.Length1 == weightBuffer.Length1
    requires colorBuffer.Length2 == 3
  {
    Acc(weightBuffer[i, j], colorBuffer[i, j, 0], colorBuffer[i, j, 1], colorBuffer[i, j, 2])
  }

  /** The body of the per-pixel loop of one tile. */
  method AccumulatePixel(target: array2<int>, region: Region, tile: Region, x: int, y: int,
                         tileStats: RgbColorStats, refStats: RgbColorStats, cosPi: real -> real,
                         weightBuffer: array2<real>, colorBuffer: array3<real>)
    requires Buffers(region, weightBuffer, colorBuffer)
    requires tile.x1 <= tile.x2 && tile.y1 <= tile.y2
    requires InRegion(region, x, y) && InImage(target, x, y)
    modifies weightBuffer, colorBuffer
    ensures BufferAt(weightBuffer, colorBuffer, y - region.y1, x - region.x1)
            == Add(old(BufferAt(weightBuffer, colorBuffer, y - region.y1, x - region.x1)),
                   PixelContribution(target[y, x], TileWeight(tile, x, y, cosPi), tileStats, refStats))
    ensures forall i, j :: 0 <= i < weightBuffer.Length0 && 0 <= j < weightBuffer.Length1
                           && (i != y - region.y1 || j != x - region.x1) ==>
              BufferAt(weightBuffer, colorBuffer, i, j) == old(BufferAt(weightBuffer, colorBuffer, i, j))
  {
    var relX, relY := x - region.x1, y - region.y1;
    var weight := TileWeight(tile, x, y, cosPi);
    var pixel := target[y, x];
    var newR := TransformChannel(pixel, R, tileStats, refStats);
    var newG := TransformChannel(pixel, G, tileStats, refStats);
    var newB := TransformChannel(pixel, B, tileStats, refStats);
    weightBuffer[relY, relX] := weightBuffer[relY, relX] + weight;
    colorBuffer[relY, relX, 0] := colorBuffer[relY, relX, 0] + Mul(newR as real, weight);
    colorBuffer[relY, relX, 1] := colorBuffer[relY, relX, 1] + Mul(newG as real, weight);
    colorBuffer[relY, relX, 2] := colorBuffer[relY, relX, 2] + Mul(newB as real, weight);
  }

  predicate RegionInImage(image: array2<int>, region: Region) {
    0 <= region.x1 && region.x2 < image.Length1 && 0 <= region.y1 && region.y2 < image.Length0
  }

  predicate TileInRegion(tile: Region, region: Region) {
    region.x1 <= tile.x1 <= tile.x2 <= region.x2 && region.y1 <= tile.y1 <= tile.y2 <= region.y2
  }

  /** The per-pixel loop over row y of one tile. */
  method AccumulateTileRow(target: array2<int>, region: Region, tile: Region, y: int,
                           tileStats: RgbColorStats, refStats: RgbColorStats, cosPi: real -> real,
                           weightBuffer: array2<real>, colorBuffer: array3<real>)
    requires Buffers(region, weightBuffer, colorBuffer)
    requires RegionInImage(target, region) && TileInRegion(tile, region) && tile.y1 <= y <= tile.y2
    modifies weightBuffer, colorBuffer
    ensures forall i, j :: 0 <= i < weightBuffer.Length0 && 0 <= j < weightBuffer.Length1 ==>
              BufferAt(weightBuffer, colorBuffer, i, j)
              == Add(old(BufferAt(weightBuffer, colorBuffer, i, j)),
                     if i == y - region.y1 then Contribution(target, tile, tileStats, refStats, cosPi, region.x1 + j, y)
                     else NoAcc)
  {
    var x := tile.x1;
    while x <= tile.x2
      invariant tile.x1 <= x <= tile.x2 + 1
      invariant forall i, j :: 0 <= i < weightBuffer.Length0 && 0 <= j < weightBuffer.Length1 ==>
                  BufferAt(weightBuffer, colorBuffer, i, j)
                  == Add(old(BufferAt(weightBuffer, colorBuffer, i, j)),
                         if i == y - region.y1 && region.x1 + j < x
                         then Contribution(target, tile, tileStats, refStats, cosPi, region.x1 + j, y)
                         else NoAcc)
    {
      AccumulatePixel(target, region, tile, x, y, tileStats, refStats, cosPi, weightBuffer, colorBuffer);
      x := x + 1;
    }
  }

  /** The per-pixel loops of one tile: every pixel the tile covers receives
      the tile's contribution. */
  method AccumulateTile(target: array2<int>, region: Region, tile: Region,
                        tileStats: RgbColorStats, refStats: RgbColorStats, cosPi: real -> real,
                        weightBuffer: array2<real>, colorBuffer: array3<real>)
    requires Buffers(region, weightBuffer, colorBuffer)
    requires RegionInImage(target, region) && TileInRegion(tile, region)
    modifies weightBuffer, colorBuffer
    ensures forall i, j :: 0 <= i < weightBuffer.Length0 && 0 <= j < weightBuffer.Length1 ==>
              BufferAt(weightBuffer, colorBuffer, i, j)
              == Add(old(BufferAt(weightBuffer, colorBuffer, i, j)),
                     Contribution(target, tile, tileStats, refStats, cosPi, region.x1 + j, region.y1 + i))
  {
    var y := tile.y1;
    while y <= tile.y2
      invariant tile.y1 <= y <= tile.y2 + 1
      invariant forall i, j :: 0 <= i < weightBuffer.Length0 && 0 <= j < weightBuffer.Length1 ==>
                  BufferAt(weightBuffer, colorBuffer, i, j)
                  == Add(old(BufferAt(weightBuffer, colorBuffer, i, j)),
                         if region.y1 + i < y
                         then Contribution(target, tile, tileStats, refStats, cosPi, region.x1 + j, region.y1 + i)
                         else NoAcc)
    {
      AccumulateTileRow(target, region, tile, y, tileStats, refStats, cosPi, weightBuffer, colorBuffer);
      y := y + 1;
    }
  }

  /** The loop over the tiles of the tile row starting at tileY. */
  method AccumulateTileRowOfTiles(target: array2<int>, reference: array2<int>, region: Region, sqrt: real -> real,
                                  cosPi: real -> real, ghost targetStatsOf: Region -> RgbColorStats,
                                  ghost referenceStatsOf: Region -> RgbColorStats, tileY: int,
                                  weightBuffer: array2<real>, colorBuffer: array3<real>)
    requires LightingRegion(target, region) && Buffers(region, weightBuffer, colorBuffer)
    requires TileStatsTable(targetStatsOf, target, region, sqrt)
    requires TileStatsTable(referenceStatsOf, reference, region, sqrt)
    requires region.y1 <= tileY < region.y2
    modifies weightBuffer, colorBuffer
    ensures forall i, j :: 0 <= i < weightBuffer.Length0 && 0 <= j < weightBuffer.Length1 ==>
              BufferAt(weightBuffer, colorBuffer, i, j)
              == RowFold(target, targetStatsOf, referenceStatsOf, region, cosPi, tileY, region.x1,
                         old(BufferAt(weightBuffer, colorBuffer, i, j)), region.x1 + j, region.y1 + i)
  {
    var tileX := region.x1;
    while tileX < region.x2
      invariant region.x1 <= tileX
      invariant forall i, j :: 0 <= i < weightBuffer.Length0 && 0 <= j < weightBuffer.Length1 ==>
                  RowFold(target, targetStatsOf, referenceStatsOf, region, cosPi, tileY, tileX,
                          BufferAt(weightBuffer, colorBuffer, i, j), region.x1 + j, region.y1 + i)
                  == RowFold(target, targetStatsOf, referenceStatsOf, region, cosPi, tileY, region.x1,
                             old(BufferAt(weightBuffer, colorBuffer, i, j)), region.x1 + j, region.y1 + i)
      decreases region.x2 - tileX
    {
      label BeforeTile:
      AccumulateTileAt(target, reference, region, sqrt, cosPi, targetStatsOf, referenceStatsOf, tileX, tileY,
                       weightBuffer, colorBuffer);
      forall i, j | 0 <= i < weightBuffer.Length0 && 0 <= j < weightBuffer.Length1
        ensures RowFold(target, targetStatsOf, referenceStatsOf, region, cosPi, tileY, tileX + Overlap,
                        BufferAt(weightBuffer, colorBuffer, i, j), region.x1 + j, region.y1 + i)
                == RowFold(target, targetStatsOf, referenceStatsOf, region, cosPi, tileY, region.x1,
                           old(BufferAt(weightBuffer, colorBuffer, i, j)), region.x1 + j, region.y1 + i)
      {
        assert RowFold(target, targetStatsOf, referenceStatsOf, region, cosPi, tileY, tileX,
                       old@BeforeTile(BufferAt(weightBuffer, colorBuffer, i, j)), region.x1 + j, region.y1 + i)
               == RowFold(target, targetStatsOf, referenceStatsOf, region, cosPi, tileY, region.x1,
                          old(BufferAt(weightBuffer, colorBuffer, i, j)), region.x1 + j, region.y1 + i);
      }
      tileX := tileX + Overlap;
    }
  }

  /** One pass of the tile loops' body: the clipped tile and the statistics
      of the tile in both images. What is left of the tile row from tileX on
      then adds up to what is left from the next tile on. */
  method AccumulateTileAt(target: array2<int>, reference: array2<int>, region: Region, sqrt: real -> real,
                          cosPi: real -> real, ghost targetStatsOf: Region -> RgbColorStats,
                          ghost referenceStatsOf: Region -> RgbColorStats, tileX: int, tileY: int,
                          weightBuffer: array2<real>, colorBuffer: array3<real>)
    requires LightingRegion(target, region) && Buffers(region, weightBuffer, colorBuffer)
    requires region.x1 <= tileX < region.x2 && region.y1 <= tileY < region.y2
    requires TileStatsTable(targetStatsOf, target, region, sqrt)
    requires TileStatsTable(referenceStatsOf, reference, region, sqrt)
    modifies weightBuffer, colorBuffer
    ensures forall i, j :: 0 <= i < weightBuffer.Length0 && 0 <= j < weightBuffer.Length1 ==>
              RowFold(target, targetStatsOf, referenceStatsOf, region, cosPi, tileY, tileX + Overlap,
                      BufferAt(weightBuffer, colorBuffer, i, j), region.x1 + j, region.y1 + i)
              == RowFold(target, targetStatsOf, referenceStatsOf, region, cosPi, tileY, tileX,
                         old(BufferAt(weightBuffer, colorBuffer, i, j)), region.x1 + j, region.y1 + i)
  {
    var tileX2 := Min(tileX + TileSize - 1, region.x2);
    var tileY2 := Min(tileY + TileSize - 1, region.y2);
    var tile := Region(tileX, tileY, tileX2, tileY2);
    assert tile == TileRect(tileX, tileY, region);
    assert targetStatsOf(tile) == TileStats(target, TileRect(tileX, tileY, region), sqrt);
    assert referenceStatsOf(tile) == TileStats(reference, TileRect(tileX, tileY, region), sqrt);
    var tileStats := CalculateRegionRgbColorStats(target, tile, sqrt);
    var refStats := CalculateRegionRgbColorStats(reference, tile, sqrt);
    AccumulateTileOfRow(target, region, targetStatsOf, referenceStatsOf, cosPi, tileX, tileY, tileStats, refStats,
                        weightBuffer, colorBuffer);
  }

  /** The per-pixel loops of the tile at (tileX, tileY), with its statistics. */
  method AccumulateTileOfRow(target: array2<int>, region: Region, ghost targetStatsOf: Region -> RgbColorStats,
                             ghost referenceStatsOf: Region -> RgbColorStats, cosPi: real -> real,
                             tileX: int, tileY: int, tileStats: RgbColorStats, refStats: RgbColorStats,
                             weightBuffer: array2<real>, colorBuffer: array3<real>)
    requires LightingRegion(target, region) && Buffers(region, weightBuffer, colorBuffer)
    requires region.x1 <= tileX < region.x2 && region.y1 <= tileY < region.y2
    requires tileStats == targetStatsOf(TileRect(tileX, tileY, region))
    requires refStats == referenceStatsOf(TileRect(tileX, tileY, region))
    modifies weightBuffer, colorBuffer
    ensures forall i, j :: 0 <= i < weightBuffer.Length0 && 0 <= j < weightBuffer.Length1 ==>
              RowFold(target, targetStatsOf, referenceStatsOf, region, cosPi, tileY, tileX + Overlap,
                      BufferAt(weightBuffer, colorBuffer, i, j), region.x1 + j, region.y1 + i)
              == RowFold(target, targetStatsOf, referenceStatsOf, region, cosPi, tileY, tileX,
                         old(BufferAt(weightBuffer, colorBuffer, i, j)), region.x1 + j, region.y1 + i)
  {
    AccumulateTile(target, region, TileRect(tileX, tileY, region), tileStats, refStats, cosPi,
                   weightBuffer, colorBuffer);
    forall i, j | 0 <= i < weightBuffer.Length0 && 0 <= j < weightBuffer.Length1
      ensures RowFold(target, targetStatsOf, referenceStatsOf, region, cosPi, tileY, tileX + Overlap,
                      BufferAt(weightBuffer, colorBuffer, i, j), region.x1 + j, region.y1 + i)
              == RowFold(target, targetStatsOf, referenceStatsOf, region, cosPi, tileY, tileX,
                         old(BufferAt(weightBuffer, colorBuffer, i, j)), region.x1 + j, region.y1 + i)
    {
      RowFoldStep(target, targetStatsOf, referenceStatsOf, region, cosPi, tileY, tileX,
                  old(BufferAt(weightBuffer, colorBuffer, i, j)), BufferAt(weightBuffer, colorBuffer, i, j),
                  region.x1 + j, region.y1 + i);
    }
  }

  /** One tile's contribution more takes the rest of the tile row one tile on:
      a bridge between what the pixel loops of one tile do to the buffers and
      one step of RowFold. */
  lemma RowFoldStep(target: array2<int>, targetStatsOf: Region -> RgbColorStats,
                    referenceStatsOf: Region -> RgbColorStats, region: Region, cosPi: real -> real,
                    ty: int, tx: int, before: Acc, after: Acc, x: int, y: int)
    requires LightingRegion(target, region) && region.y1 <= ty < region.y2 && region.x1 <= tx < region.x2
    requires after == Add(before, Contribution(target, TileRect(tx, ty, region), targetStatsOf(TileRect(tx, ty, region)),
                                               referenceStatsOf(TileRect(tx, ty, region)), cosPi, x, y))
    ensures RowFold(target, targetStatsOf, referenceStatsOf, region, cosPi, ty, tx + Overlap, after, x, y)
            == RowFold(target, targetStatsOf, referenceStatsOf, region, cosPi, ty, tx, before, x, y)
  {
  }

  /** The loop over the tile rows: in the end every buffer entry has received
      what all tiles add at its pixel. */
  method AccumulateTiles(target: array2<int>, reference: array2<int>, region: Region, sqrt: real -> real,
                         cosPi: real -> real, ghost targetStatsOf: Region -> RgbColorStats,
                         ghost referenceStatsOf: Region -> RgbColorStats,
                         weightBuffer: array2<real>, colorBuffer: array3<real>)
    requires LightingRegion(target, region) && Buffers(region, weightBuffer, colorBuffer)
    requires TileStatsTable(targetStatsOf, target, region, sqrt)
    requires TileStatsTable(referenceStatsOf, reference, region, sqrt)
    modifies weightBuffer, colorBuffer
    ensures forall i, j :: 0 <= i < weightBuffer.Length0 && 0 <= j < weightBuffer.Length1 ==>
              BufferAt(weightBuffer, colorBuffer, i, j)
              == TilesFold(target, targetStatsOf, referenceStatsOf, region, cosPi, region.y1,
                           old(BufferAt(weightBuffer, colorBuffer, i, j)), region.x1 + j, region.y1 + i)
  {
    var tileY := region.y1;
    while tileY < region.y2
      invariant region.y1 <= tileY
      invariant forall i, j :: 0 <= i < weightBuffer.Length0 && 0 <= j < weightBuffer.Length1 ==>
                  TilesFold(target, targetStatsOf, referenceStatsOf, region, cosPi, tileY,
                            BufferAt(weightBuffer, colorBuffer, i, j), region.x1 + j, region.y1 + i)
                  == TilesFold(target, targetStatsOf, referenceStatsOf, region, cosPi, region.y1,
                               old(BufferAt(weightBuffer, colorBuffer, i, j)), region.x1 + j, region.y1 + i)
      decreases region.y2 - tileY
    {
      AccumulateTileRowOfTiles(target, reference, region, sqrt, cosPi, targetStatsOf, referenceStatsOf, tileY,
                               weightBuffer, colorBuffer);
      tileY := tileY + Overlap;
    }
  }

  /** The second pass at one buffer entry with positive weight: divide, round,
      clamp, pack, and `result_image.setPixel(x + x1, y + y1, final_pixel)`. */
  method WriteBlendedPixel(result: array2<int>, region: Region, weightBuffer: array2<real>,
                           colorBuffer: array3<real>, i: int, j: int)
    requires Buffers(region, weightBuffer, colorBuffer)
    requires 0 <= i < weightBuffer.Length0 && 0 <= j < weightBuffer.Length1 && weightBuffer[i, j] > 0.0
    requires InImage(result, region.x1 + j, region.y1 + i)
    modifies result
    ensures result[region.y1 + i, region.x1 + j] == BlendedPixel(BufferAt(weightBuffer, colorBuffer, i, j))
    ensures forall y, x :: InImage(result, x, y) && (y != region.y1 + i || x != region.x1 + j) ==>
              result[y, x] == old(result[y, x])
  {
    var weight := weightBuffer[i, j];
    var finalR := ClampRound(colorBuffer[i, j, 0] / weight);
    var finalG := ClampRound(colorBuffer[i, j, 1] / weight);
    var finalB := ClampRound(colorBuffer[i, j, 2] / weight);
    result[region.y1 + i, region.x1 + j] := Pack(finalR, finalG, finalB);
  }

  /** Whether the second pass writes at buffer entry (i, j). */
  predicate Blends(weightBuffer: array2<real>, i: int, j: int)
    reads weightBuffer
  {
    0 <= i < weightBuffer.Length0 && 0 <= j < weightBuffer.Length1 && weightBuffer[i, j] > 0.0
  }

  /** The second pass over buffer row i. */
  method WriteBlendedRow(result: array2<int>, region: Region, weightBuffer: array2<real>,
                         colorBuffer: array3<real>, i: int)
    requires Buffers(region, weightBuffer, colorBuffer) && 0 <= i < weightBuffer.Length0
    requires forall i', j :: Blends(weightBuffer, i', j) ==> InImage(result, region.x1 + j, region.y1 + i')
    modifies result
    ensures forall y, x :: InImage(result, x, y) ==>
              result[y, x] == if y == region.y1 + i && Blends(weightBuffer, i, x - region.x1)
                              then BlendedPixel(BufferAt(weightBuffer, colorBuffer, i, x - region.x1))
                              else old(result[y, x])
  {
    var j := 0;
    while j < weightBuffer.Length1
      invariant 0 <= j <= weightBuffer.Length1
      invariant forall y, x :: InImage(result, x, y) ==>
                  result[y, x] == if y == region.y1 + i && x - region.x1 < j && Blends(weightBuffer, i, x - region.x1)
                                  then BlendedPixel(BufferAt(weightBuffer, colorBuffer, i, x - region.x1))
                                  else old(result[y, x])
    {
      if weightBuffer[i, j] > 0.0 {
        assert Blends(weightBuffer, i, j);
        WriteBlendedPixel(result, region, weightBuffer, colorBuffer, i, j);
      }
      j := j + 1;
    }
  }

  /** The second pass: every entry with positive weight is written to its
      pixel of the result; nothing else changes. */
  method WriteBlended(result: array2<int>, region: Region, weightBuffer: array2<real>, colorBuffer: array3<real>)
    requires Buffers(region, weightBuffer, colorBuffer)
    requires forall i, j :: Blends(weightBuffer, i, j) ==> InImage(result, region.x1 + j, region.y1 + i)
    modifies result
    ensures forall y, x :: InImage(result, x, y) ==>
              result[y, x] == if Blends(weightBuffer, y - region.y1, x - region.x1)
                              then BlendedPixel(BufferAt(weightBuffer, colorBuffer, y - region.y1, x - region.x1))
                              else old(result[y, x])
  {
    var i := 0;
    while i < weightBuffer.Length0
      invariant 0 <= i <= weightBuffer.Length0
      invariant forall y, x :: InImage(result, x, y) ==>
                  result[y, x] == if y - region.y1 < i && Blends(weightBuffer, y - region.y1, x - region.x1)
                                  then BlendedPixel(BufferAt(weightBuffer, colorBuffer, y - region.y1, x - region.x1))
                                  else old(result[y, x])
    {
      label BeforeRow:
      WriteBlendedRow(result, region, weightBuffer, colorBuffer, i);
      forall y, x | InImage(result, x, y)
        ensures result[y, x] == if y - region.y1 < i + 1 && Blends(weightBuffer, y - region.y1, x - region.x1)
                                then BlendedPixel(BufferAt(weightBuffer, colorBuffer, y - region.y1, x - region.x1))
                                else old(result[y, x])
      {
        if y != region.y1 + i {
          assert result[y, x] == old@BeforeRow(result[y, x]);
        }
      }
      i := i + 1;
    }
  }

  /** Without a tile row or a tile column nothing is accumulated anywhere. */
  lemma {:induction false} NoTilesNoAcc(target: array2<int>, targetStatsOf: Region -> RgbColorStats,
                                        referenceStatsOf: Region -> RgbColorStats, region: Region,
                                        cosPi: real -> real, ty: int, start: Acc, x: int, y: int)
    requires LightingRegion(target, region) && region.y1 <= ty && (region.x2 <= region.x1 || region.y2 <= region.y1)
    ensures TilesFold(target, targetStatsOf, referenceStatsOf, region, cosPi, ty, start, x, y) == start
    decreases region.y2 - ty
  {
    if ty < region.y2 {
      NoTilesNoAcc(target, targetStatsOf, referenceStatsOf, region, cosPi, ty + Overlap, start, x, y);
    }
  }

  /** The tiles of the region, one per pair of origins. */
  function Tiles(region: Region): set<Region> {
    set tx, ty | region.x1 <= tx < region.x2 && region.y1 <= ty < region.y2 :: TileRect(tx, ty, region)
  }

  /** A table of the statistics of image over every tile of the region. */
  method StatsTable(image: array2<int>, region: Region, sqrt: real -> real)
    returns (ghost statsOf: Region -> RgbColorStats)
    ensures TileStatsTable(statsOf, image, region, sqrt)
  {
    ghost var table := map tile | tile in Tiles(region) :: TileStats(image, tile, sqrt);
    statsOf := tile => if tile in table then table[tile] else EmptyStats;
    forall tx, ty | region.x1 <= tx < region.x2 && region.y1 <= ty < region.y2
      ensures statsOf(TileRect(tx, ty, region)) == TileStats(image, TileRect(tx, ty, region), sqrt)
    {
      assert TileRect(tx, ty, region) in Tiles(region);
    }
  }

  /** The first pass, from zeroed buffers: every entry ends up holding what all
      tiles add at its pixel. */
  method FirstPass(target: array2<int>, reference: array2<int>, region: Region, sqrt: real -> real,
                   cosPi: real -> real, ghost targetStatsOf: Region -> RgbColorStats,
                   ghost referenceStatsOf: Region -> RgbColorStats)
    returns (weightBuffer: array2<real>, colorBuffer: array3<real>)
    requires LightingRegion(target, region)
    requires TileStatsTable(targetStatsOf, target, region, sqrt)
    requires TileStatsTable(referenceStatsOf, reference, region, sqrt)
    ensures fresh(weightBuffer) && fresh(colorBuffer) && Buffers(region, weightBuffer, colorBuffer)
    ensures forall i, j :: 0 <= i < weightBuffer.Length0 && 0 <= j < weightBuffer.Length1 ==>
              BufferAt(weightBuffer, colorBuffer, i, j)
              == TotalAcc(target, targetStatsOf, referenceStatsOf, region, cosPi, region.x1 + j, region.y1 + i)
  {
    var width := region.x2 - region.x1 + 1;
    var height := region.y2 - region.y1 + 1;
    weightBuffer := new real[height, width]((i, j) => 0.0);
    colorBuffer := new real[height, width, 3]((i, j, k) => 0.0);
    AccumulateTiles(target, reference, region, sqrt, cosPi, targetStatsOf, referenceStatsOf,
                    weightBuffer, colorBuffer);
  }

  /** apply_region_lighting_transfer: a new image, equal to the target except
      inside the region, where every pixel that received weight from some tile
      is the weighted blend of the tiles' colour-matched versions of it. The
      statistics tables are those of the target and the reference over every
      tile. */
  method ApplyRegionLightingTransfer(target: array2<int>, reference: array2<int>, region: Region,
                                     sqrt: real -> real, cosPi: real -> real)
    returns (result: array2<int>, ghost targetStatsOf: Region -> RgbColorStats,
             ghost referenceStatsOf: Region -> RgbColorStats)
    requires LightingRegion(target, region)
    ensures fresh(result) && result.Length0 == target.Length0 && result.Length1 == target.Length1
    ensures TileStatsTable(targetStatsOf, target, region, sqrt)
    ensures TileStatsTable(referenceStatsOf, reference, region, sqrt)
    ensures forall y, x :: InImage(result, x, y) ==>
              result[y, x] == TransferredPixel(target, targetStatsOf, referenceStatsOf, region, cosPi, x, y)
  {
    result := new int[target.Length0, target.Length1]((y, x) reads target =>
                if 0 <= y < target.Length0 && 0 <= x < target.Length1 then target[y, x] else 0);
    targetStatsOf := StatsTable(target, region, sqrt);
    referenceStatsOf := StatsTable(reference, region, sqrt);
    var weightBuffer, colorBuffer := FirstPass(target, reference, region, sqrt, cosPi, targetStatsOf, referenceStatsOf);
    BlendsInRegion(target, targetStatsOf, referenceStatsOf, region, cosPi, weightBuffer, colorBuffer);
    WriteBlended(result, region, weightBuffer, colorBuffer);
    WrittenIsTransferred(target, targetStatsOf, referenceStatsOf, region, cosPi, weightBuffer, colorBuffer, result);
  }

  /** The image the second pass leaves, from a copy of the target and buffers
      holding the tiles' totals, is the transferred image. */
  lemma WrittenIsTransferred(target: array2<int>, targetStatsOf: Region -> RgbColorStats,
                             referenceStatsOf: Region -> RgbColorStats, region: Region, cosPi: real -> real,
                             weightBuffer: array2<real>, colorBuffer: array3<real>, result: array2<int>)
    requires LightingRegion(target, region) && Buffers(region, weightBuffer, colorBuffer)
    requires result.Length0 == target.Length0 && result.Length1 == target.Length1
    requires forall i, j :: 0 <= i < weightBuffer.Length0 && 0 <= j < weightBuffer.Length1 ==>
               BufferAt(weightBuffer, colorBuffer, i, j)
               == TotalAcc(target, targetStatsOf, referenceStatsOf, region, cosPi, region.x1 + j, region.y1 + i)
    requires forall y, x :: InImage(result, x, y) ==>
               result[y, x] == if Blends(weightBuffer, y - region.y1, x - region.x1)
                               then BlendedPixel(BufferAt(weightBuffer, colorBuffer, y - region.y1, x - region.x1))
                               else target[y, x]
    ensures forall y, x :: InImage(result, x, y) ==>
              result[y, x] == TransferredPixel(target, targetStatsOf, referenceStatsOf, region, cosPi, x, y)
  {
    forall y, x | InImage(result, x, y)
      ensures result[y, x] == TransferredPixel(target, targetStatsOf, referenceStatsOf, region, cosPi, x, y)
    {
      if InRegion(region, x, y) {
        assert BufferAt(weightBuffer, colorBuffer, y - region.y1, x - region.x1)
               == TotalAcc(target, targetStatsOf, referenceStatsOf, region, cosPi,
                           region.x1 + (x - region.x1), region.y1 + (y - region.y1));
      }
    }
  }

  /** Only a region with a tile receives weight, and such a region lies in the image. */
  lemma BlendsInRegion(target: array2<int>, targetStatsOf: Region -> RgbColorStats,
                       referenceStatsOf: Region -> RgbColorStats, region: Region, cosPi: real -> real,
                       weightBuffer: array2<real>, colorBuffer: array3<real>)
    requires LightingRegion(target, region) && Buffers(region, weightBuffer, colorBuffer)
    requires forall i, j :: 0 <= i < weightBuffer.Length0 && 0 <= j < weightBuffer.Length1 ==>
               BufferAt(weightBuffer, colorBuffer, i, j)
               == TotalAcc(target, targetStatsOf, referenceStatsOf, region, cosPi, region.x1 + j, region.y1 + i)
    ensures forall i, j :: Blends(weightBuffer, i, j) ==> InImage(target, region.x1 + j, region.y1 + i)
  {
    forall i, j | Blends(weightBuffer, i, j) ensures InImage(target, region.x1 + j, region.y1 + i) {
      assert BufferAt(weightBuffer, colorBuffer, i, j).weight > 0.0;
      if region.x2 <= region.x1 {
        NoTilesNoAcc(target, targetStatsOf, referenceStatsOf, region, cosPi, region.y1, NoAcc,
                     region.x1 + j, region.y1 + i);
      }
    }
  }

  // ---------------------------------------------------------------------------
  // Where the tiles put weight

  /** The weight alone of a tile's contribution. */
  lemma ContributionWeight(target: array2<int>, tile: Region, tileStats: RgbColorStats, refStats: RgbColorStats,
                           cosPi: real -> real, x: int, y: int)
    requires tile.x1 <= tile.x2 && tile.y1 <= tile.y2
    requires InRegion(tile, x, y) ==> InImage(target, x, y)
    ensures Contribution(target, tile, tileStats, refStats, cosPi, x, y).weight == CoverWeight(tile, x, y, cosPi)
  {
  }

  /** The weight the tiles of row ty from tx on add to start at (x, y). */
  function RowWeight(region: Region, cosPi: real -> real, ty: int, tx: int, start: real, x: int, y: int): real
    requires region.y1 <= ty < region.y2 && region.x1 <= tx
    decreases region.x2 - tx
  {
    if tx >= region.x2 then start
    else RowWeight(region, cosPi, ty, tx + Overlap, start + CoverWeight(TileRect(tx, ty, region), x, y, cosPi), x, y)
  }

  /** The weight the tile rows from ty on add to start at (x, y). */
  function TilesWeight(region: Region, cosPi: real -> real, ty: int, start: real, x: int, y: int): real
    requires region.y1 <= ty
    decreases region.y2 - ty
  {
    if ty >= region.y2 then start
    else TilesWeight(region, cosPi, ty + Overlap, RowWeight(region, cosPi, ty, region.x1, start, x, y), x, y)
  }

  /** The weights of the row fold are the row's weights. */
  lemma {:induction false} RowFoldWeight(target: array2<int>, targetStatsOf: Region -> RgbColorStats,
                                         referenceStatsOf: Region -> RgbColorStats, region: Region,
                                         cosPi: real -> real, ty: int, tx: int, start: Acc, x: int, y: int)
    requires LightingRegion(target, region) && region.y1 <= ty < region.y2 && region.x1 <= tx
    ensures RowFold(target, targetStatsOf, referenceStatsOf, region, cosPi, ty, tx, start, x, y).weight
            == RowWeight(region, cosPi, ty, tx, start.weight, x, y)
    decreases region.x2 - tx
  {
    if tx < region.x2 {
      var tile := TileRect(tx, ty, region);
      var c := Contribution(target, tile, targetStatsOf(tile), referenceStatsOf(tile), cosPi, x, y);
      ContributionWeight(target, tile, targetStatsOf(tile), referenceStatsOf(tile), cosPi, x, y);
      RowFoldWeight(target, targetStatsOf, referenceStatsOf, region, cosPi, ty, tx + Overlap, Add(start, c), x, y);
    }
  }

  /** The weights of the whole fold are the tiles' weights. */
  lemma {:induction false} TilesFoldWeight(target: array2<int>, targetStatsOf: Region -> RgbColorStats,
                                           referenceStatsOf: Region -> RgbColorStats, region: Region,
                                           cosPi: real -> real, ty: int, start: Acc, x: int, y: int)
    requires LightingRegion(target, region) && region.y1 <= ty
    ensures TilesFold(target, targetStatsOf, referenceStatsOf, region, cosPi, ty, start, x, y).weight
            == TilesWeight(region, cosPi, ty, start.weight, x, y)
    decreases region.y2 - ty
  {
    if ty < region.y2 {
      var rowAcc := RowFold(target, targetStatsOf, referenceStatsOf, region, cosPi, ty, region.x1, start, x, y);
      RowFoldWeight(target, targetStatsOf, referenceStatsOf, region, cosPi, ty, region.x1, start, x, y);
      TilesFoldWeight(target, targetStatsOf, referenceStatsOf, region, cosPi, ty + Overlap, rowAcc, x, y);
    }
  }

  /** Outside the region without its first row and column no tile adds weight. */
  lemma {:induction false} RowWeightOutside(region: Region, cosPi: real -> real, ty: int, tx: int, start: real,
                                            x: int, y: int)
    requires region.y1 <= ty < region.y2 && region.x1 <= tx
    requires !(region.x1 < x <= region.x2 && region.y1 < y <= region.y2)
    ensures RowWeight(region, cosPi, ty, tx, start, x, y) == start
    decreases region.x2 - tx
  {
    if tx < region.x2 {
      assert CoverWeight(TileRect(tx, ty, region), x, y, cosPi) == 0.0;
      RowWeightOutside(region, cosPi, ty, tx + Overlap, start, x, y);
    }
  }

  lemma {:induction false} TilesWeightOutside(region: Region, cosPi: real -> real, ty: int, start: real,
                                              x: int, y: int)
    requires region.y1 <= ty
    requires !(region.x1 < x <= region.x2 && region.y1 < y <= region.y2)
    ensures TilesWeight(region, cosPi, ty, start, x, y) == start
    decreases region.y2 - ty
  {
    if ty < region.y2 {
      RowWeightOutside(region, cosPi, ty, region.x1, start, x, y);
      TilesWeightOutside(region, cosPi, ty + Overlap, start, x, y);
    }
  }

  /** Weights are never negative, so folding in more tiles never lowers the sum. */
  lemma {:induction false} RowWeightGrows(region: Region, cosPi: real -> real, ty: int, tx: int, start: real,
                                          x: int, y: int)
    requires IsCosPi(cosPi) && region.y1 <= ty < region.y2 && region.x1 <= tx
    ensures RowWeight(region, cosPi, ty, tx, start, x, y) >= start
    decreases region.x2 - tx
  {
    if tx < region.x2 {
      var w := CoverWeight(TileRect(tx, ty, region), x, y, cosPi);
      RowWeightGrows(region, cosPi, ty, tx + Overlap, start + w, x, y);
    }
  }

  lemma {:induction false} TilesWeightGrows(region: Region, cosPi: real -> real, ty: int, start: real,
                                            x: int, y: int)
    requires IsCosPi(cosPi) && region.y1 <= ty
    ensures TilesWeight(region, cosPi, ty, start, x, y) >= start
    decreases region.y2 - ty
  {
    if ty < region.y2 {
      RowWeightGrows(region, cosPi, ty, region.x1, start, x, y);
      TilesWeightGrows(region, cosPi, ty + Overlap, RowWeight(region, cosPi, ty, region.x1, start, x, y), x, y);
    }
  }

  /** The row's loop reaches the origin tx0 = tx + 16 k, and the tile there
      gives (x, y) positive weight when x lies in (tx0, tx0 + 16] and y in
      (ty, ty + 16], both inside the region. */
  lemma {:induction false} RowWeightReaches(region: Region, cosPi: real -> real, ty: int, tx: int, start: real,
                                            x: int, y: int, k: nat)
    requires IsCosPi(cosPi) && region.y1 <= ty < region.y2 && region.x1 <= tx
    requires tx + Overlap * k < x <= tx + Overlap * k + Overlap && x <= region.x2
    requires ty < y <= ty + Overlap && y <= region.y2
    ensures RowWeight(region, cosPi, ty, tx, start, x, y) > start
    decreases k
  {
    var w := CoverWeight(TileRect(tx, ty, region), x, y, cosPi);
    if k == 0 {
      assert w > 0.0;
      RowWeightGrows(region, cosPi, ty, tx + Overlap, start + w, x, y);
    } else {
      RowWeightReaches(region, cosPi, ty, tx + Overlap, start + w, x, y, k - 1);
    }
  }

  lemma {:induction false} TilesWeightReaches(region: Region, cosPi: real -> real, ty: int, start: real,
                                              x: int, y: int, kx: nat, ky: nat)
    requires IsCosPi(cosPi) && region.y1 <= ty
    requires region.x1 + Overlap * kx < x <= region.x1 + Overlap * kx + Overlap && x <= region.x2
    requires ty + Overlap * ky < y <= ty + Overlap * ky + Overlap && y <= region.y2
    ensures TilesWeight(region, cosPi, ty, start, x, y) > start
    decreases ky
  {
    var rowWeight := RowWeight(region, cosPi, ty, region.x1, start, x, y);
    if ky == 0 {
      RowWeightReaches(region, cosPi, ty, region.x1, start, x, y, kx);
      TilesWeightGrows(region, cosPi, ty + Overlap, rowWeight, x, y);
    } else {
      RowWeightGrows(region, cosPi, ty, region.x1, start, x, y);
      TilesWeightReaches(region, cosPi, ty + Overlap, rowWeight, x, y, kx, ky - 1);
    }
  }

  /** The first pass puts positive weight on (x, y) exactly when the pixel is
      in the region but in neither its first row nor its first column. */
  lemma TotalWeightPositiveIff(target: array2<int>, targetStatsOf: Region -> RgbColorStats,
                               referenceStatsOf: Region -> RgbColorStats, region: Region, cosPi: real -> real,
                               x: int, y: int)
    requires LightingRegion(target, region) && IsCosPi(cosPi)
    ensures TotalAcc(target, targetStatsOf, referenceStatsOf, region, cosPi, x, y).weight > 0.0
            <==> region.x1 < x <= region.x2 && region.y1 < y <= region.y2
  {
    TilesFoldWeight(target, targetStatsOf, referenceStatsOf, region, cosPi, region.y1, NoAcc, x, y);
    if region.x1 < x <= region.x2 && region.y1 < y <= region.y2 {
      var kx, ky := (x - region.x1 - 1) / Overlap, (y - region.y1 - 1) / Overlap;
      TilesWeightReaches(region, cosPi, region.y1, 0.0, x, y, kx, ky);
    } else {
      TilesWeightOutside(region, cosPi, region.y1, 0.0, x, y);
    }
  }

  /** Every pixel outside the region, and every pixel of its first row or
      first column, keeps the target's value. This holds for any cosine. */
  lemma KeepsTargetOutsideInterior(target: array2<int>, targetStatsOf: Region -> RgbColorStats,
                                   referenceStatsOf: Region -> RgbColorStats, region: Region, cosPi: real -> real,
                                   x: int, y: int)
    requires LightingRegion(target, region) && InImage(target, x, y)
    requires !(region.x1 < x <= region.x2 && region.y1 < y <= region.y2)
    ensures TransferredPixel(target, targetStatsOf, referenceStatsOf, region, cosPi, x, y) == target[y, x]
  {
    TilesFoldWeight(target, targetStatsOf, referenceStatsOf, region, cosPi, region.y1, NoAcc, x, y);
    TilesWeightOutside(region, cosPi, region.y1, 0.0, x, y);
  }

  /** Every other pixel of the region is the blend of the tiles' versions of it. */
  lemma BlendsInsideInterior(target: array2<int>, targetStatsOf: Region -> RgbColorStats,
                             referenceStatsOf: Region -> RgbColorStats, region: Region, cosPi: real -> real,
                             x: int, y: int)
    requires LightingRegion(target, region) && IsCosPi(cosPi)
    requires region.x1 < x <= region.x2 && region.y1 < y <= region.y2
    ensures InImage(target, x, y)
    ensures TotalAcc(target, targetStatsOf, referenceStatsOf, region, cosPi, x, y).weight > 0.0
    ensures TransferredPixel(target, targetStatsOf, referenceStatsOf, region, cosPi, x, y)
            == BlendedPixel(TotalAcc(target, targetStatsOf, referenceStatsOf, region, cosPi, x, y))
  {
    TotalWeightPositiveIff(target, targetStatsOf, referenceStatsOf, region, cosPi, x, y);
  }

  // ---------------------------------------------------------------------------
  // Transferring an image's lighting onto itself

  /** Every channel sum of a is the channel of p times the weight of a. */
  predicate Proportional(a: Acc, p: int) {
    a.r == Mul(a.weight, Red(p) as real) && a.g == Mul(a.weight, Green(p) as real)
    && a.b == Mul(a.weight, Blue(p) as real)
  }

  lemma AddProportional(a: Acc, b: Acc, p: int)
    requires Proportional(a, p) && Proportional(b, p)
    ensures Proportional(Add(a, b), p)
  {
    MulAdd(Red(p) as real, a.weight, b.weight);
    MulAdd(Green(p) as real, a.weight, b.weight);
    MulAdd(Blue(p) as real, a.weight, b.weight);
  }

  lemma MulAdd(c: real, v: real, w: real)
    ensures Mul(v, c) + Mul(w, c) == Mul(v + w, c)
  {
  }

  /** A tile matched to its own statistics contributes, at any pixel of the
      image, sums proportional to that pixel. */
  lemma SelfContribution(target: array2<int>, tile: Region, sqrt: real -> real, cosPi: real -> real, x: int, y: int)
    requires IsSqrt(sqrt) && tile.x1 <= tile.x2 && tile.y1 <= tile.y2 && InImage(target, x, y)
    ensures Proportional(Contribution(target, tile, TileStats(target, tile, sqrt), TileStats(target, tile, sqrt),
                                      cosPi, x, y), target[y, x])
  {
    if InRegion(tile, x, y) {
      OwnStatsKeepChannel(target, tile, sqrt, R, x, y);
      OwnStatsKeepChannel(target, tile, sqrt, G, x, y);
      OwnStatsKeepChannel(target, tile, sqrt, B, x, y);
    }
  }

  lemma {:induction false} RowFoldSelf(target: array2<int>, targetStatsOf: Region -> RgbColorStats,
                                       referenceStatsOf: Region -> RgbColorStats, region: Region,
                                       sqrt: real -> real, cosPi: real -> real, ty: int, tx: int, start: Acc,
                                       x: int, y: int)
    requires LightingRegion(target, region) && region.y1 <= ty < region.y2 && region.x1 <= tx
    requires IsSqrt(sqrt) && TileStatsTable(targetStatsOf, target, region, sqrt)
    requires TileStatsTable(referenceStatsOf, target, region, sqrt)
    requires InImage(target, x, y) && Proportional(start, target[y, x])
    ensures Proportional(RowFold(target, targetStatsOf, referenceStatsOf, region, cosPi, ty, tx, start, x, y),
                         target[y, x])
    decreases region.x2 - tx
  {
    if tx < region.x2 {
      var tile := TileRect(tx, ty, region);
      var stats := TileStats(target, tile, sqrt);
      assert targetStatsOf(tile) == stats && referenceStatsOf(tile) == stats;
      var c := Contribution(target, tile, stats, stats, cosPi, x, y);
      SelfContribution(target, tile, sqrt, cosPi, x, y);
      AddProportional(start, c, target[y, x]);
      RowFoldSelf(target, targetStatsOf, referenceStatsOf, region, sqrt, cosPi, ty, tx + Overlap, Add(start, c), x, y);
    }
  }

  lemma {:induction false} TilesFoldSelf(target: array2<int>, targetStatsOf: Region -> RgbColorStats,
                                         referenceStatsOf: Region -> RgbColorStats, region: Region,
                                         sqrt: real -> real, cosPi: real -> real, ty: int, start: Acc,
                                         x: int, y: int)
    requires LightingRegion(target, region) && region.y1 <= ty
    requires IsSqrt(sqrt) && TileStatsTable(targetStatsOf, target, region, sqrt)
    requires TileStatsTable(referenceStatsOf, target, region, sqrt)
    requires InImage(target, x, y) && Proportional(start, target[y, x])
    ensures Proportional(TilesFold(target, targetStatsOf, referenceStatsOf, region, cosPi, ty, start, x, y),
                         target[y, x])
    decreases region.y2 - ty
  {
    if ty < region.y2 {
      RowFoldSelf(target, targetStatsOf, referenceStatsOf, region, sqrt, cosPi, ty, region.x1, start, x, y);
      TilesFoldSelf(target, targetStatsOf, referenceStatsOf, region, sqrt, cosPi, ty + Overlap,
                    RowFold(target, targetStatsOf, referenceStatsOf, region, cosPi, ty, region.x1, start, x, y), x, y);
    }
  }

  /** Blending sums that are all proportional to one pixel gives that pixel. */
  lemma BlendProportional(a: Acc, p: int)
    requires a.weight > 0.0 && Proportional(a, p) && 0 <= p < 0x100_0000
    ensures BlendedPixel(a) == p
  {
    DivOfMul(a.weight, Red(p) as real);
    DivOfMul(a.weight, Green(p) as real);
    DivOfMul(a.weight, Blue(p) as real);
    RoundOfInteger(Red(p));
    RoundOfInteger(Green(p));
    RoundOfInteger(Blue(p));
    assert ClampRound(a.r / a.weight) == Red(p);
    assert ClampRound(a.g / a.weight) == Green(p);
    assert ClampRound(a.b / a.weight) == Blue(p);
    PackUnpack(p);
  }

  /** With the target as its own reference, the lighting transfer gives back
      every pixel that has no alpha byte, whatever the cosine. */
  lemma SelfTransferKeepsPixel(target: array2<int>, targetStatsOf: Region -> RgbColorStats,
                               referenceStatsOf: Region -> RgbColorStats, region: Region,
                               sqrt: real -> real, cosPi: real -> real, x: int, y: int)
    requires LightingRegion(target, region) && IsSqrt(sqrt)
    requires TileStatsTable(targetStatsOf, target, region, sqrt)
    requires TileStatsTable(referenceStatsOf, target, region, sqrt)
    requires InImage(target, x, y) && 0 <= target[y, x] < 0x100_0000
    ensures TransferredPixel(target, targetStatsOf, referenceStatsOf, region, cosPi, x, y) == target[y, x]
  {
    var a := TotalAcc(target, targetStatsOf, referenceStatsOf, region, cosPi, x, y);
    assert Proportional(NoAcc, target[y, x]);
    TilesFoldSelf(target, targetStatsOf, referenceStatsOf, region, sqrt, cosPi, region.y1, NoAcc, x, y);
    if a.weight > 0.0 {
      BlendProportional(a, target[y, x]);
    }
  }

  // ---------------------------------------------------------------------------
  // The blended averages need no clamping

  /** A non-negative weight, and every channel sum between 0 and 255 times it. */
  predicate InRange(a: Acc) {
    0.0 <= a.weight
    && 0.0 <= a.r <= Mul(a.weight, 255.0) && 0.0 <= a.g <= Mul(a.weight, 255.0)
    && 0.0 <= a.b <= Mul(a.weight, 255.0)
  }

  lemma AddInRange(a: Acc, b: Acc)
    requires InRange(a) && InRange(b)
    ensures InRange(Add(a, b))
  {
    MulAdd(a.weight, b.weight, 255.0);
  }

  /** A channel value times a weight in [0, 1] lies between 0 and 255 times the weight. */
  lemma ScaledChannel(c: int, w: real)
    requires IsChannel(c) && 0.0 <= w
    ensures 0.0 <= Mul(c as real, w) <= Mul(w, 255.0)
  {
    assert Mul(w, 255.0) - Mul(c as real, w) == (255.0 - c as real) * w;
  }

  lemma ContributionInRange(target: array2<int>, tile: Region, tileStats: RgbColorStats, refStats: RgbColorStats,
                            cosPi: real -> real, x: int, y: int)
    requires IsCosPi(cosPi) && tile.x1 <= tile.x2 && tile.y1 <= tile.y2
    requires InRegion(tile, x, y) ==> InImage(target, x, y)
    ensures InRange(Contribution(target, tile, tileStats, refStats, cosPi, x, y))
  {
    if InRegion(tile, x, y) {
      var p, w := target[y, x], TileWeight(tile, x, y, cosPi);
      ScaledChannel(TransformChannel(p, R, tileStats, refStats), w);
      ScaledChannel(TransformChannel(p, G, tileStats, refStats), w);
      ScaledChannel(TransformChannel(p, B, tileStats, refStats), w);
    }
  }

  lemma {:induction false} RowFoldInRange(target: array2<int>, targetStatsOf: Region -> RgbColorStats,
                                          referenceStatsOf: Region -> RgbColorStats, region: Region,
                                          cosPi: real -> real, ty: int, tx: int, start: Acc, x: int, y: int)
    requires LightingRegion(target, region) && region.y1 <= ty < region.y2 && region.x1 <= tx
    requires IsCosPi(cosPi) && InRange(start)
    ensures InRange(RowFold(target, targetStatsOf, referenceStatsOf, region, cosPi, ty, tx, start, x, y))
    decreases region.x2 - tx
  {
    if tx < region.x2 {
      var tile := TileRect(tx, ty, region);
      var c := Contribution(target, tile, targetStatsOf(tile), referenceStatsOf(tile), cosPi, x, y);
      ContributionInRange(target, tile, targetStatsOf(tile), referenceStatsOf(tile), cosPi, x, y);
      AddInRange(start, c);
      RowFoldInRange(target, targetStatsOf, referenceStatsOf, region, cosPi, ty, tx + Overlap, Add(start, c), x, y);
    }
  }

  lemma {:induction false} TilesFoldInRange(target: array2<int>, targetStatsOf: Region -> RgbColorStats,
                                            referenceStatsOf: Region -> RgbColorStats, region: Region,
                                            cosPi: real -> real, ty: int, start: Acc, x: int, y: int)
    requires LightingRegion(target, region) && region.y1 <= ty
    requires IsCosPi(cosPi) && InRange(start)
    ensures InRange(TilesFold(target, targetStatsOf, referenceStatsOf, region, cosPi, ty, start, x, y))
    decreases region.y2 - ty
  {
    if ty < region.y2 {
      RowFoldInRange(target, targetStatsOf, referenceStatsOf, region, cosPi, ty, region.x1, start, x, y);
      TilesFoldInRange(target, targetStatsOf, referenceStatsOf, region, cosPi, ty + Overlap,
                       RowFold(target, targetStatsOf, referenceStatsOf, region, cosPi, ty, region.x1, start, x, y),
                       x, y);
    }
  }

  lemma AverageInRange(s: real, w: real)
    requires 0.0 < w && 0.0 <= s <= Mul(w, 255.0)
    ensures 0.0 <= s / w <= 255.0
  {
    assert s / w * w == s;
  }

  /** Wherever weight landed, every weighted average already lies in [0, 255]:
      the blended pixel is the packed rounded averages, and the clamp of the
      second pass never changes them. */
  lemma BlendNeedsNoClamp(target: array2<int>, targetStatsOf: Region -> RgbColorStats,
                          referenceStatsOf: Region -> RgbColorStats, region: Region, cosPi: real -> real,
                          x: int, y: int)
    requires LightingRegion(target, region) && IsCosPi(cosPi)
    requires TotalAcc(target, targetStatsOf, referenceStatsOf, region, cosPi, x, y).weight > 0.0
    ensures var a := TotalAcc(target, targetStatsOf, referenceStatsOf, region, cosPi, x, y);
            0.0 <= a.r / a.weight <= 255.0 && 0.0 <= a.g / a.weight <= 255.0 && 0.0 <= a.b / a.weight <= 255.0
            && BlendedPixel(a) == Pack(Round(a.r / a.weight), Round(a.g / a.weight), Round(a.b / a.weight))
  {
    var a := TotalAcc(target, targetStatsOf, referenceStatsOf, region, cosPi, x, y);
    TilesFoldInRange(target, targetStatsOf, referenceStatsOf, region, cosPi, region.y1, NoAcc, x, y);
    AverageInRange(a.r, a.weight);
    AverageInRange(a.g, a.weight);
    AverageInRange(a.b, a.weight);
  }
}
