/** Regional RGB statistics: `RGBColorStats` and
    `calculate_region_rgb_color_stats` of ImageController (and their copy in
    the image_color library). */
module ColorStats {
  import opened Pixels

  /** The region tuple (x1, y1, x2, y2): an inclusive rectangle that is never
      checked against an image; every consumer clips it when it is used. */
  datatype Region = Region(x1: int, y1: int, x2: int, y2: int)

  predicate InRegion(region: Region, x: int, y: int) {
    region.x1 <= x <= region.x2 && region.y1 <= y <= region.y2
  }

  /** A pixel buffer is `image[y, x]`: Length0 is the height, Length1 the width. */
  predicate InImage(image: array2<int>, x: int, y: int) {
    0 <= x < image.Length1 && 0 <= y < image.Length0
  }

  /** The square root the source takes with `** 0.5`, given as a parameter. */
  ghost predicate IsSqrt(sqrt: real -> real) {
    forall v :: 0.0 <= v ==> 0.0 <= sqrt(v) && Square(sqrt(v)) == v
  }

  datatype Channel = R | G | B | White

  /** The value a pixel contributes to a channel; white is `(r + g + b) / 3`. */
  function ChannelValue(p: int, c: Channel): (v: real)
    ensures 0.0 <= v <= 255.0
  {
    match c
    case R => Red(p) as real
    case G => Green(p) as real
    case B => Blue(p) as real
    case White => (Red(p) + Green(p) + Blue(p)) as real / 3.0
  }

  datatype RgbColorStats = RgbColorStats(
    pixelCount: nat,
    avgR: real, avgG: real, avgB: real, avgWhite: real,
    rSd: real, gSd: real, bSd: real, whiteSd: real)

  /** The record returned when no pixel of the region lies in the image. */
  const EmptyStats := RgbColorStats(0, 0.0, 0.0, 0.0, 0.0, 0.0, 0.0, 0.0, 0.0)

  function Avg(s: RgbColorStats, c: Channel): real {
    match c
    case R => s.avgR
    case G => s.avgG
    case B => s.avgB
    case White => s.avgWhite
  }

  function Sd(s: RgbColorStats, c: Channel): real {
    match c
    case R => s.rSd
    case G => s.gSd
    case B => s.bSd
    case White => s.whiteSd
  }

  // ---------------------------------------------------------------------------
  // The pixels a region visits

  /** In-image pixels of row y between columns x1 and xLast, in visiting order. */
  function RowPixels(image: array2<int>, y: int, x1: int, xLast: int): seq<int>
    reads image
    decreases xLast - x1
  {
    if xLast < x1 then []
    else RowPixels(image, y, x1, xLast - 1)
         + if InImage(image, xLast, y) then [image[y, xLast]] else []
  }

  /** In-image pixels of rows y1..yLast between columns x1 and x2, row by row. */
  function RowsPixels(image: array2<int>, x1: int, x2: int, y1: int, yLast: int): seq<int>
    reads image
    decreases yLast - y1
  {
    if yLast < y1 then []
    else RowsPixels(image, x1, x2, y1, yLast - 1) + RowPixels(image, yLast, x1, x2)
  }

  /** The pixels `for y in range(y1, y2 + 1): for x in range(x1, x2 + 1)` reads,
      skipping every coordinate outside the image. */
  function RegionPixels(image: array2<int>, region: Region): seq<int>
    reads image
  {
    RowsPixels(image, region.x1, region.x2, region.y1, region.y2)
  }

  /** How many integers of [lo, hi] lie in [0, n). */
  function ClipLength(lo: int, hi: int, n: int): nat {
    var a, b := Max(lo, 0), Min(hi, n - 1);
    if b < a then 0 else b - a + 1
  }

  // ---------------------------------------------------------------------------
  // Statistics of a sequence of pixels

  /** The channel-c values of ps, in order: the source's r_values, g_values, ... */
  function Values(ps: seq<int>, c: Channel): (vs: seq<real>)
    ensures |vs| == |ps|
  {
    if ps == [] then [] else Values(ps[..|ps| - 1], c) + [ChannelValue(ps[|ps| - 1], c)]
  }

  /** Python's sum(), adding from the left. */
  function Sum(vs: seq<real>): real {
    if vs == [] then 0.0 else Sum(vs[..|vs| - 1]) + vs[|vs| - 1]
  }

  /** `sum((x - mean) ** 2 for x in vs)` */
  function SquaredDiffSum(vs: seq<real>, mean: real): real {
    if vs == [] then 0.0
    else SquaredDiffSum(vs[..|vs| - 1], mean) + Square(vs[|vs| - 1] - mean)
  }

  /** Real multiplication, kept behind a name so that products of a term with
      itself reach the solver in one shape. */
  function Mul(a: real, b: real): real {
    a * b
  }

  /** `d ** 2` */
  function Square(d: real): real {
    Mul(d, d)
  }

  /** The mean of channel c over ps: the channel sum over the count. */
  function Mean(ps: seq<int>, c: Channel): real
    requires ps != []
  {
    Sum(Values(ps, c)) / |ps| as real
  }

  /** The population variance of channel c over ps (divided by the count). */
  function Variance(ps: seq<int>, c: Channel): real
    requires ps != []
  {
    SquaredDiffSum(Values(ps, c), Mean(ps, c)) / |ps| as real
  }

  /** The statistics of the visited pixels: the all-zero record when there are
      none, otherwise the means and the square roots of the variances. */
  function StatsOf(ps: seq<int>, sqrt: real -> real): RgbColorStats {
    if ps == [] then EmptyStats
    else
      RgbColorStats(
        |ps|, Mean(ps, R), Mean(ps, G), Mean(ps, B), Mean(ps, White),
        sqrt(Variance(ps, R)), sqrt(Variance(ps, G)), sqrt(Variance(ps, B)), sqrt(Variance(ps, White)))
  }

  /** The c fields of the statistics of a non-empty region: a bridge from the
      record's field names to the channel-indexed Mean and Variance, which the
      lemmas below are stated in. */
  lemma StatsOfChannel(ps: seq<int>, sqrt: real -> real, c: Channel)
    requires ps != []
    ensures Avg(StatsOf(ps, sqrt), c) == Mean(ps, c)
    ensures Sd(StatsOf(ps, sqrt), c) == sqrt(Variance(ps, c))
  {
  }

  // ---------------------------------------------------------------------------
  // The operation

  /** The accumulators of the source's loop: pixel_count, r_sum, g_sum,
      b_sum, white_sum and the lists r_values, g_values, b_values, white_values. */
  datatype Accumulators = Accumulators(
    pixelCount: nat,
    rSum: real, gSum: real, bSum: real, whiteSum: real,
    rValues: seq<real>, gValues: seq<real>, bValues: seq<real>, whiteValues: seq<real>)

  const NoneVisited := Accumulators(0, 0.0, 0.0, 0.0, 0.0, [], [], [], [])

  /** What visiting one in-image pixel does to the accumulators. */
  function Visit(acc: Accumulators, pixel: int): Accumulators {
    var r, g, b := Red(pixel), Green(pixel), Blue(pixel);
    var whiteValue := (r + g + b) as real / 3.0;
    Accumulators(
      acc.pixelCount + 1,
      acc.rSum + r as real, acc.gSum + g as real, acc.bSum + b as real, acc.whiteSum + whiteValue,
      acc.rValues + [r as real], acc.gValues + [g as real], acc.bValues + [b as real],
      acc.whiteValues + [whiteValue])
  }

  /** The accumulators after visiting the pixels of ps in order, starting from acc. */
  function VisitAll(acc: Accumulators, ps: seq<int>): Accumulators {
    if ps == [] then acc else Visit(VisitAll(acc, ps[..|ps| - 1]), ps[|ps| - 1])
  }

  /** The accumulators after visiting the pixels of ps from the initial zeros. */
  function AccumulatorsOf(ps: seq<int>): Accumulators {
    VisitAll(NoneVisited, ps)
  }

  /** The tail of the source's computation: the all-zero record for an empty
      region, otherwise the averages and population standard deviations. */
  function Summarize(acc: Accumulators, sqrt: real -> real): RgbColorStats {
    if acc.pixelCount == 0 then EmptyStats
    else
      var n := acc.pixelCount as real;
      var avgR, avgG, avgB, avgWhite := acc.rSum / n, acc.gSum / n, acc.bSum / n, acc.whiteSum / n;
      RgbColorStats(
        acc.pixelCount, avgR, avgG, avgB, avgWhite,
        sqrt(SquaredDiffSum(acc.rValues, avgR) / n), sqrt(SquaredDiffSum(acc.gValues, avgG) / n),
        sqrt(SquaredDiffSum(acc.bValues, avgB) / n), sqrt(SquaredDiffSum(acc.whiteValues, avgWhite) / n))
  }

  /** calculate_region_rgb_color_stats: one pass over the region followed by
      the summary. It never fails: coordinates outside the image are skipped. */
  method CalculateRegionRgbColorStats(image: array2<int>, region: Region, sqrt: real -> real)
    returns (stats: RgbColorStats)
    ensures stats == StatsOf(RegionPixels(image, region), sqrt)
  {
    var acc := AccumulateRegion(image, region);
    stats := Summarize(acc, sqrt);
    SummarizeIsStatsOf(RegionPixels(image, region), sqrt);
  }

  /** The nested loops of calculate_region_rgb_color_stats: rows y1..y2, and in
      each row the columns x1..x2. */
  method AccumulateRegion(image: array2<int>, region: Region) returns (acc: Accumulators)
    ensures acc == AccumulatorsOf(RegionPixels(image, region))
  {
    acc := NoneVisited;
    var y := region.y1;
    while y <= region.y2
      invariant y == region.y1 || region.y1 < y <= region.y2 + 1
      invariant acc == AccumulatorsOf(RowsPixels(image, region.x1, region.x2, region.y1, y - 1))
      decreases region.y2 - y
    {
      ghost var rows := RowsPixels(image, region.x1, region.x2, region.y1, y - 1);
      acc := AccumulateRow(image, y, region.x1, region.x2, acc);
      VisitAllAppend(NoneVisited, rows, RowPixels(image, y, region.x1, region.x2));
      y := y + 1;
    }
  }

  /** The inner loop over one row: every coordinate outside the image is
      skipped, and each visited pixel adds its channels to the sums and its
      values to the lists. */
  method AccumulateRow(image: array2<int>, y: int, x1: int, x2: int, acc0: Accumulators)
    returns (acc: Accumulators)
    ensures acc == VisitAll(acc0, RowPixels(image, y, x1, x2))
  {
    acc := acc0;
    var x := x1;
    while x <= x2
      invariant x == x1 || x1 < x <= x2 + 1
      invariant acc == VisitAll(acc0, RowPixels(image, y, x1, x - 1))
      decreases x2 - x
    {
      ghost var visited := RowPixels(image, y, x1, x - 1);
      RowPixelsLast(image, y, x1, x);
      if x < 0 || y < 0 || x >= image.Length1 || y >= image.Length0 {
        assert visited + [] == visited;
        x := x + 1;
        continue;
      }
      var pixel := image[y, x];
      ghost var before := acc;
      var r, g, b := Red(pixel), Green(pixel), Blue(pixel);
      var whiteValue := (r + g + b) as real / 3.0;
      acc := acc.(
        rSum := acc.rSum + r as real, gSum := acc.gSum + g as real,
        bSum := acc.bSum + b as real, whiteSum := acc.whiteSum + whiteValue,
        rValues := acc.rValues + [r as real], gValues := acc.gValues + [g as real],
        bValues := acc.bValues + [b as real], whiteValues := acc.whiteValues + [whiteValue],
        pixelCount := acc.pixelCount + 1);
      assert acc == Visit(before, pixel);
      VisitLast(acc0, visited, pixel);
      x := x + 1;
    }
  }

  lemma RowPixelsLast(image: array2<int>, y: int, x1: int, x: int)
    requires x1 <= x
    ensures RowPixels(image, y, x1, x)
            == RowPixels(image, y, x1, x - 1) + if InImage(image, x, y) then [image[y, x]] else []
  {
  }

  lemma VisitLast(acc: Accumulators, ps: seq<int>, p: int)
    ensures VisitAll(acc, ps + [p]) == Visit(VisitAll(acc, ps), p)
  {
    assert (ps + [p])[..|ps|] == ps;
  }

  /** Visiting a + b is visiting a, then b. */
  lemma {:induction false} VisitAllAppend(acc: Accumulators, a: seq<int>, b: seq<int>)
    ensures VisitAll(acc, a + b) == VisitAll(VisitAll(acc, a), b)
    decreases |b|
  {
    if b == [] {
      assert a + b == a;
    } else {
      var init, p := b[..|b| - 1], b[|b| - 1];
      VisitAllAppend(acc, a, init);
      assert (a + b)[..|a + b| - 1] == a + init;
    }
  }

  lemma SummarizeIsStatsOf(ps: seq<int>, sqrt: real -> real)
    ensures Summarize(AccumulatorsOf(ps), sqrt) == StatsOf(ps, sqrt)
  {
    AccumulatorsOfIsTally(ps);
  }

  /** The accumulators hold the count, the channel value lists and their sums. */
  lemma {:induction false} AccumulatorsOfIsTally(ps: seq<int>)
    ensures AccumulatorsOf(ps) == Accumulators(
      |ps|, Sum(Values(ps, R)), Sum(Values(ps, G)), Sum(Values(ps, B)), Sum(Values(ps, White)),
      Values(ps, R), Values(ps, G), Values(ps, B), Values(ps, White))
  {
    if ps != [] {
      var init, p := ps[..|ps| - 1], ps[|ps| - 1];
      AccumulatorsOfIsTally(init);
      forall c ensures Values(ps, c) == Values(init, c) + [ChannelValue(p, c)] {
      }
      assert Values(ps, R)[..|init|] == Values(init, R);
      assert Values(ps, G)[..|init|] == Values(init, G);
      assert Values(ps, B)[..|init|] == Values(init, B);
      assert Values(ps, White)[..|init|] == Values(init, White);
    }
  }

  // ---------------------------------------------------------------------------
  // Which pixels are visited, and how many

  /** A row contributes one pixel per column of [x1, xLast] inside the image,
      and none when the row itself is outside the image. */
  lemma {:induction false} RowPixelsCount(image: array2<int>, y: int, x1: int, xLast: int)
    ensures |RowPixels(image, y, x1, xLast)|
            == if 0 <= y < image.Length0 then ClipLength(x1, xLast, image.Length1) else 0
    decreases xLast - x1
  {
    if xLast >= x1 {
      RowPixelsCount(image, y, x1, xLast - 1);
    }
  }

  lemma {:induction false} RowsPixelsCount(image: array2<int>, x1: int, x2: int, y1: int, yLast: int)
    ensures |RowsPixels(image, x1, x2, y1, yLast)|
            == ClipLength(x1, x2, image.Length1) * ClipLength(y1, yLast, image.Length0)
    decreases yLast - y1
  {
    if yLast >= y1 {
      RowsPixelsCount(image, x1, x2, y1, yLast - 1);
      RowPixelsCount(image, yLast, x1, x2);
      var w := ClipLength(x1, x2, image.Length1);
      var h := ClipLength(y1, yLast - 1, image.Length0);
      if 0 <= yLast < image.Length0 {
        assert ClipLength(y1, yLast, image.Length0) == h + 1;
        MulSucc(w, h);
      } else {
        assert ClipLength(y1, yLast, image.Length0) == h;
      }
    }
  }

  lemma MulSucc(w: int, h: int)
    ensures w * (h + 1) == w * h + w
  {
  }

  /** pixel_count is the number of region coordinates that lie in the image:
      the in-image width of the region times its in-image height. */
  lemma RegionPixelCount(image: array2<int>, region: Region, sqrt: real -> real)
    ensures StatsOf(RegionPixels(image, region), sqrt).pixelCount
            == ClipLength(region.x1, region.x2, image.Length1)
               * ClipLength(region.y1, region.y2, image.Length0)
  {
    RowsPixelsCount(image, region.x1, region.x2, region.y1, region.y2);
  }

  /** The all-zero record comes back exactly when no coordinate of the region
      lies in the image. */
  lemma EmptyRegion(image: array2<int>, region: Region, sqrt: real -> real)
    ensures StatsOf(RegionPixels(image, region), sqrt) == EmptyStats
            <==> ClipLength(region.x1, region.x2, image.Length1) == 0
                 || ClipLength(region.y1, region.y2, image.Length0) == 0
  {
    RowsPixelsCount(image, region.x1, region.x2, region.y1, region.y2);
    ProductZero(ClipLength(region.x1, region.x2, image.Length1),
      ClipLength(region.y1, region.y2, image.Length0));
  }

  lemma ProductZero(a: nat, b: nat)
    ensures a * b == 0 <==> a == 0 || b == 0
  {
    if a > 0 && b > 0 {
      MulSucc(a, b - 1);
    }
  }

  /** A value occurs among the visited pixels of a row exactly when it is the
      pixel at some in-image column of the row. */
  lemma {:induction false} RowPixelsMember(image: array2<int>, y: int, x1: int, xLast: int, p: int)
    ensures p in RowPixels(image, y, x1, xLast)
            <==> exists x :: x1 <= x <= xLast && InImage(image, x, y) && image[y, x] == p
    decreases xLast - x1
  {
    if xLast >= x1 {
      RowPixelsMember(image, y, x1, xLast - 1, p);
    }
  }

  lemma {:induction false} RowsPixelsMember(image: array2<int>, x1: int, x2: int, y1: int, yLast: int, p: int)
    ensures p in RowsPixels(image, x1, x2, y1, yLast)
            <==> exists x, y :: x1 <= x <= x2 && y1 <= y <= yLast && InImage(image, x, y) && image[y, x] == p
    decreases yLast - y1
  {
    if yLast >= y1 {
      var above := RowsPixels(image, x1, x2, y1, yLast - 1);
      var row := RowPixels(image, yLast, x1, x2);
      RowsPixelsMember(image, x1, x2, y1, yLast - 1, p);
      RowPixelsMember(image, yLast, x1, x2, p);
      if p in above + row {
        if p in above {
          var x, y :| x1 <= x <= x2 && y1 <= y <= yLast - 1 && InImage(image, x, y) && image[y, x] == p;
          assert y1 <= y <= yLast;
        } else {
          var x :| x1 <= x <= x2 && InImage(image, x, yLast) && image[yLast, x] == p;
          assert y1 <= yLast <= yLast;
        }
      }
      if exists x, y :: x1 <= x <= x2 && y1 <= y <= yLast && InImage(image, x, y) && image[y, x] == p {
        var x, y :| x1 <= x <= x2 && y1 <= y <= yLast && InImage(image, x, y) && image[y, x] == p;
        if y == yLast {
          assert p in row;
        } else {
          assert p in above;
        }
      }
    }
  }

  /** The statistics read exactly the pixels of the region that lie in the
      image: a value is visited iff it sits at such a coordinate. */
  lemma RegionPixelsMember(image: array2<int>, region: Region, p: int)
    ensures p in RegionPixels(image, region)
            <==> exists x, y :: InRegion(region, x, y) && InImage(image, x, y) && image[y, x] == p
  {
    RowsPixelsMember(image, region.x1, region.x2, region.y1, region.y2, p);
  }

  // ---------------------------------------------------------------------------
  // Averages

  lemma {:induction false} ValuesAt(ps: seq<int>, c: Channel, i: int)
    requires 0 <= i < |ps|
    ensures Values(ps, c)[i] == ChannelValue(ps[i], c)
    decreases |ps|
  {
    if i < |ps| - 1 {
      ValuesAt(ps[..|ps| - 1], c, i);
    }
  }

  /** A sum of values in [0, 255] lies in [0, 255 * count]. */
  lemma {:induction false} SumBounds(vs: seq<real>)
    requires forall i :: 0 <= i < |vs| ==> 0.0 <= vs[i] <= 255.0
    ensures 0.0 <= Sum(vs) <= 255.0 * |vs| as real
    decreases |vs|
  {
    if vs != [] {
      SumBounds(vs[..|vs| - 1]);
    }
  }

  /** Every average of a non-empty region lies in [0, 255]. */
  lemma AverageBounds(ps: seq<int>, sqrt: real -> real, c: Channel)
    requires ps != []
    ensures 0.0 <= Avg(StatsOf(ps, sqrt), c) <= 255.0
  {
    var vs := Values(ps, c);
    forall i | 0 <= i < |vs| ensures 0.0 <= vs[i] <= 255.0 {
      ValuesAt(ps, c, i);
    }
    SumBounds(vs);
    StatsOfChannel(ps, sqrt, c);
    DivBounds(Sum(vs), |ps| as real);
  }

  lemma DivBounds(s: real, n: real)
    requires n >= 1.0 && 0.0 <= s <= 255.0 * n
    ensures 0.0 <= s / n <= 255.0
  {
    assert s / n * n == s;
  }

  /** The white sum is a third of the three channel sums together. */
  lemma {:induction false} WhiteSum(ps: seq<int>)
    ensures Sum(Values(ps, White)) * 3.0
            == Sum(Values(ps, R)) + Sum(Values(ps, G)) + Sum(Values(ps, B))
    decreases |ps|
  {
    if ps != [] {
      WhiteSum(ps[..|ps| - 1]);
    }
  }

  /** avg_white is the mean of the three channel averages. */
  lemma WhiteIsMeanOfChannels(ps: seq<int>, sqrt: real -> real)
    requires ps != []
    ensures StatsOf(ps, sqrt).avgWhite
            == (StatsOf(ps, sqrt).avgR + StatsOf(ps, sqrt).avgG + StatsOf(ps, sqrt).avgB) / 3.0
  {
    WhiteSum(ps);
    ThirdOfMeans(Sum(Values(ps, White)), Sum(Values(ps, R)), Sum(Values(ps, G)), Sum(Values(ps, B)),
      |ps| as real);
  }

  lemma ThirdOfMeans(w: real, r: real, g: real, b: real, n: real)
    requires n > 0.0 && w * 3.0 == r + g + b
    ensures w / n == (r / n + g / n + b / n) / 3.0
  {
    assert r / n + g / n + b / n == (r + g + b) / n;
  }

  // ---------------------------------------------------------------------------
  // Standard deviations

  lemma MulPos(a: real, b: real)
    requires a > 0.0 && b > 0.0
    ensures Mul(a, b) > 0.0
  {
  }

  lemma SquareDifference(s: real, t: real)
    ensures Square(s) - Square(t) == Mul(s - t, s + t)
  {
  }

  /** A square is never negative, and it is 0 only for 0. */
  lemma SquareFacts(d: real)
    ensures Square(d) >= 0.0
    ensures Square(d) == 0.0 <==> d == 0.0
  {
    if d > 0.0 {
      MulPos(d, d);
    } else if d < 0.0 {
      MulPos(-d, -d);
      assert Square(d) == Square(-d);
    }
  }

  lemma {:induction false} SquaredDiffSumNonNegative(vs: seq<real>, mean: real)
    ensures SquaredDiffSum(vs, mean) >= 0.0
    decreases |vs|
  {
    if vs != [] {
      SquaredDiffSumNonNegative(vs[..|vs| - 1], mean);
      SquareFacts(vs[|vs| - 1] - mean);
    }
  }

  /** The sum of squared differences vanishes exactly when every value is the mean. */
  lemma {:induction false} SquaredDiffSumZero(vs: seq<real>, mean: real)
    ensures SquaredDiffSum(vs, mean) == 0.0 <==> forall i :: 0 <= i < |vs| ==> vs[i] == mean
    decreases |vs|
  {
    if vs != [] {
      var init, v := vs[..|vs| - 1], vs[|vs| - 1];
      SquaredDiffSumZero(init, mean);
      SquaredDiffSumNonNegative(init, mean);
      SquareFacts(v - mean);
      assert forall i :: 0 <= i < |init| ==> init[i] == vs[i];
    }
  }

  lemma DivOfMul(n: real, v: real)
    requires n > 0.0
    ensures Mul(n, v) / n == v
  {
  }

  lemma DivByCount(x: real, n: real)
    requires n > 0.0
    ensures x >= 0.0 ==> x / n >= 0.0
    ensures x / n == 0.0 <==> x == 0.0
  {
    assert x / n * n == x;
  }

  /** The population variance of a non-empty region is never negative. */
  lemma VarianceNonNegative(ps: seq<int>, c: Channel)
    requires ps != []
    ensures Variance(ps, c) >= 0.0
  {
    var squares := SquaredDiffSum(Values(ps, c), Mean(ps, c));
    SquaredDiffSumNonNegative(Values(ps, c), Mean(ps, c));
    DivByCount(squares, |ps| as real);
  }

  /** Each standard deviation is the square root of the channel's population
      variance, so it is never negative. */
  lemma SdIsRootOfVariance(ps: seq<int>, sqrt: real -> real, c: Channel)
    requires IsSqrt(sqrt) && ps != []
    ensures Sd(StatsOf(ps, sqrt), c) == sqrt(Variance(ps, c))
    ensures Sd(StatsOf(ps, sqrt), c) >= 0.0
  {
    VarianceNonNegative(ps, c);
    StatsOfChannel(ps, sqrt, c);
  }

  /** A channel's standard deviation is 0 exactly when every visited pixel has
      that channel's average as its value. */
  lemma SdZeroIff(ps: seq<int>, sqrt: real -> real, c: Channel)
    requires IsSqrt(sqrt) && ps != []
    ensures Sd(StatsOf(ps, sqrt), c) == 0.0
            <==> forall i :: 0 <= i < |ps| ==> ChannelValue(ps[i], c) == Avg(StatsOf(ps, sqrt), c)
  {
    StatsOfChannel(ps, sqrt, c);
    VarianceNonNegative(ps, c);
    var vs, mean := Values(ps, c), Mean(ps, c);
    SquaredDiffSumZero(vs, mean);
    DivByCount(SquaredDiffSum(vs, mean), |ps| as real);
    SqrtZeroIff(sqrt, Variance(ps, c));
    forall i | 0 <= i < |ps| ensures vs[i] == ChannelValue(ps[i], c) {
      ValuesAt(ps, c, i);
    }
  }

  lemma SqrtZeroIff(sqrt: real -> real, v: real)
    requires IsSqrt(sqrt) && v >= 0.0
    ensures sqrt(v) == 0.0 <==> v == 0.0
  {
    SquareFacts(sqrt(v));
  }

  /** The mean of a constant sequence is that constant. */
  lemma {:induction false} SumOfConstant(vs: seq<real>, v: real)
    requires forall i :: 0 <= i < |vs| ==> vs[i] == v
    ensures Sum(vs) == Mul(|vs| as real, v)
    decreases |vs|
  {
    if vs != [] {
      SumOfConstant(vs[..|vs| - 1], v);
    }
  }

  /** A region whose pixels all share one value of channel c has that value
      as its average and 0 as its standard deviation. */
  lemma UniformChannel(ps: seq<int>, sqrt: real -> real, c: Channel, v: real)
    requires IsSqrt(sqrt) && ps != []
    requires forall i :: 0 <= i < |ps| ==> ChannelValue(ps[i], c) == v
    ensures Avg(StatsOf(ps, sqrt), c) == v
    ensures Sd(StatsOf(ps, sqrt), c) == 0.0
  {
    var vs := Values(ps, c);
    forall i | 0 <= i < |vs| ensures vs[i] == v {
      ValuesAt(ps, c, i);
    }
    SumOfConstant(vs, v);
    DivOfMul(|ps| as real, v);
    assert Mean(ps, c) == v;
    StatsOfChannel(ps, sqrt, c);
    SdZeroIff(ps, sqrt, c);
  }

  /** A non-negative square root is unique. */
  lemma RootUnique(s: real, t: real)
    requires s >= 0.0 && t >= 0.0 && Square(s) == Square(t)
    ensures s == t
  {
    SquareDifference(s, t);
    if s > t {
      MulPos(s - t, s + t);
    } else if s < t {
      MulPos(t - s, s + t);
      SquareDifference(t, s);
    }
  }

  lemma ValuesSnoc(ps: seq<int>, p: int, c: Channel)
    ensures Values(ps + [p], c) == Values(ps, c) + [ChannelValue(p, c)]
  {
    assert (ps + [p])[..|ps|] == ps;
  }

  lemma SumSnoc(vs: seq<real>, v: real, mean: real)
    ensures Sum(vs + [v]) == Sum(vs) + v
    ensures SquaredDiffSum(vs + [v], mean) == SquaredDiffSum(vs, mean) + Square(v - mean)
  {
    assert (vs + [v])[..|vs|] == vs;
  }

  /** A 2 x 2 block of black and white pixels, two of each: every channel
      averages 127.5 with standard deviation 127.5 over four pixels. */
  lemma BlackAndWhiteBlock(image: array2<int>, sqrt: real -> real)
    requires IsSqrt(sqrt)
    requires image.Length0 == 2 && image.Length1 == 2
    requires image[0, 0] == 0 && image[0, 1] == 0xFF_FFFF
    requires image[1, 0] == 0 && image[1, 1] == 0xFF_FFFF
    ensures StatsOf(RegionPixels(image, Region(0, 0, 1, 1)), sqrt)
            == RgbColorStats(4, 127.5, 127.5, 127.5, 127.5, 127.5, 127.5, 127.5, 127.5)
  {
    BlockPixels(image);
    var ps := [0, 0xFF_FFFF, 0, 0xFF_FFFF];
    forall c ensures Mean(ps, c) == 127.5 && Variance(ps, c) == 16256.25 {
      BlackAndWhiteValues(c);
      BlackAndWhiteSums();
    }
    assert sqrt(16256.25) == 127.5 by {
      RootUnique(sqrt(16256.25), 127.5);
    }
  }

  lemma BlockPixels(image: array2<int>)
    requires image.Length0 == 2 && image.Length1 == 2
    ensures RegionPixels(image, Region(0, 0, 1, 1)) == [image[0, 0], image[0, 1], image[1, 0], image[1, 1]]
  {
    assert RowPixels(image, 0, 0, 0) == [image[0, 0]];
    assert RowPixels(image, 1, 0, 0) == [image[1, 0]];
    assert RowPixels(image, 0, 0, 1) == [image[0, 0], image[0, 1]];
    assert RowPixels(image, 1, 0, 1) == [image[1, 0], image[1, 1]];
    assert RowsPixels(image, 0, 1, 0, 0) == [image[0, 0], image[0, 1]];
  }

  lemma BlackAndWhiteValues(c: Channel)
    ensures Values([0, 0xFF_FFFF, 0, 0xFF_FFFF], c) == [0.0, 255.0, 0.0, 255.0]
  {
    ValuesOfFour(0, 0xFF_FFFF, 0, 0xFF_FFFF, c);
    assert Red(0xFF_FFFF) == 255 && Green(0xFF_FFFF) == 255 && Blue(0xFF_FFFF) == 255;
  }

  lemma ValuesOfFour(p0: int, p1: int, p2: int, p3: int, c: Channel)
    ensures Values([p0, p1, p2, p3], c)
            == [ChannelValue(p0, c), ChannelValue(p1, c), ChannelValue(p2, c), ChannelValue(p3, c)]
  {
    assert [] + [p0] == [p0];
    assert [p0] + [p1] == [p0, p1];
    assert [p0, p1] + [p2] == [p0, p1, p2];
    assert [p0, p1, p2] + [p3] == [p0, p1, p2, p3];
    ValuesSnoc([], p0, c);
    ValuesSnoc([p0], p1, c);
    ValuesSnoc([p0, p1], p2, c);
    ValuesSnoc([p0, p1, p2], p3, c);
  }

  lemma BlackAndWhiteSums()
    ensures Sum([0.0, 255.0, 0.0, 255.0]) == 510.0
    ensures SquaredDiffSum([0.0, 255.0, 0.0, 255.0], 127.5) == 65025.0
  {
    assert [] + [0.0] == [0.0];
    assert [0.0] + [255.0] == [0.0, 255.0];
    assert [0.0, 255.0] + [0.0] == [0.0, 255.0, 0.0];
    assert [0.0, 255.0, 0.0] + [255.0] == [0.0, 255.0, 0.0, 255.0];
    SumSnoc([], 0.0, 127.5);
    SumSnoc([0.0], 255.0, 127.5);
    SumSnoc([0.0, 255.0], 0.0, 127.5);
    SumSnoc([0.0, 255.0, 0.0], 255.0, 127.5);
  }
}
