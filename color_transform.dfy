/** Regional colour matching: `apply_region_rgb_color_stats` of ImageController
    (and its copy in the image_color library) with its inner `transform_value`. */
module ColorTransform {
  import opened Pixels
  import opened ColorStats

  /** transform_value: the target mean when the current spread is 0, otherwise
      the deviation from the current mean scaled by the ratio of the standard
      deviations and re-centred on the target mean. */
  function TransformValue(value: real, currAvg: real, currSd: real, targetAvg: real, targetSd: real)
    : (r: real)
    ensures currSd == 0.0 ==> r == targetAvg
    ensures currSd != 0.0 ==> Mul(r - targetAvg, currSd) == Mul(value - currAvg, targetSd)
  {
    if currSd == 0.0 then targetAvg
    else
      var scaledDeviation := (value - currAvg) * (targetSd / currSd);
      ScaledDeviation(value - currAvg, targetSd, currSd);
      scaledDeviation + targetAvg
  }

  lemma ScaledDeviation(d: real, targetSd: real, currSd: real)
    requires currSd != 0.0
    ensures Mul(d * (targetSd / currSd), currSd) == Mul(d, targetSd)
  {
    assert targetSd / currSd * currSd == targetSd;
  }

  /** With the same mean and the same non-zero spread on both sides the
      transform is the identity. */
  lemma {:induction false} TransformIdentity(value: real, avg: real, sd: real)
    requires sd != 0.0
    ensures TransformValue(value, avg, sd, avg, sd) == value
  {
    var r := TransformValue(value, avg, sd, avg, sd);
    MulCancel(r - avg, value - avg, sd);
  }

  /** Mapping from one (mean, sd) to another and back gives the value back
      when both spreads are non-zero: transform_value is invertible. This is a
      property of the transform in its own right; nothing else uses it. */
  lemma {:induction false} TransformRoundTrip(value: real, currAvg: real, currSd: real, targetAvg: real, targetSd: real)
    requires currSd != 0.0 && targetSd != 0.0
    ensures TransformValue(TransformValue(value, currAvg, currSd, targetAvg, targetSd),
                           targetAvg, targetSd, currAvg, currSd) == value
  {
    var there := TransformValue(value, currAvg, currSd, targetAvg, targetSd);
    var back := TransformValue(there, targetAvg, targetSd, currAvg, currSd);
    // (there - tA) cS == (v - cA) tS  and  (back - cA) tS == (there - tA) cS
    MulCancel(back - currAvg, value - currAvg, targetSd);
  }

  lemma MulCancel(a: real, b: real, k: real)
    requires k != 0.0 && Mul(a, k) == Mul(b, k)
    ensures a == b
  {
    assert (a - b) * k == 0.0;
  }

  ghost predicate SdsSet(s: RgbColorStats) {
    s.rSd != 0.0 && s.gSd != 0.0 && s.bSd != 0.0
  }

  /** The new value of channel c (R, G or B) of pixel p: transformed, then
      `max(0, min(255, round(..)))`. */
  function TransformChannel(p: int, c: Channel, current: RgbColorStats, target: RgbColorStats): (v: int)
    ensures IsChannel(v)
    ensures Sd(current, c) == 0.0 ==> v == ClampRound(Avg(target, c))
  {
    ClampRound(TransformValue(ChannelValue(p, c), Avg(current, c), Sd(current, c), Avg(target, c), Sd(target, c)))
  }

  /** The pixel written back: `(new_r << 16) | (new_g << 8) | new_b`. It holds
      no alpha byte, and unpacking it gives back the three new channels. */
  function TransformPixel(p: int, current: RgbColorStats, target: RgbColorStats): (q: int)
    ensures 0 <= q < 0x100_0000
    ensures Red(q) == TransformChannel(p, R, current, target)
    ensures Green(q) == TransformChannel(p, G, current, target)
    ensures Blue(q) == TransformChannel(p, B, current, target)
  {
    var r, g, b := TransformChannel(p, R, current, target), TransformChannel(p, G, current, target),
      TransformChannel(p, B, current, target);
    UnpackPack(r, g, b);
    Pack(r, g, b)
  }

  /** Matching a region to its own statistics keeps channel c of every pixel
      whose channel spread is non-zero. */
  lemma SameStatsKeepChannel(p: int, s: RgbColorStats, c: Channel)
    requires c != White && Sd(s, c) != 0.0
    ensures TransformChannel(p, c, s, s) == ChannelInt(p, c)
  {
    TransformIdentity(ChannelValue(p, c), Avg(s, c), Sd(s, c));
    RoundOfInteger(ChannelInt(p, c));
  }

  /** The integer channel c of p, for c in R, G, B. */
  function ChannelInt(p: int, c: Channel): (v: int)
    requires c != White
    ensures IsChannel(v) && v as real == ChannelValue(p, c)
  {
    match c
    case R => Red(p)
    case G => Green(p)
    case B => Blue(p)
  }

  /** ... and so, with all three spreads non-zero, it keeps the pixel. */
  lemma SameStatsKeepPixel(p: int, s: RgbColorStats)
    requires 0 <= p < 0x100_0000 && SdsSet(s)
    ensures TransformPixel(p, s, s) == p
  {
    SameStatsKeepChannel(p, s, R);
    SameStatsKeepChannel(p, s, G);
    SameStatsKeepChannel(p, s, B);
    PackUnpack(p);
  }

  /** Matching a region to its own statistics gives every in-image pixel of it
      back its channel c: through the identity transform where the region's
      spread is not 0, and through the mean, which is then the pixel's own
      value, where it is. */
  lemma OwnStatsKeepChannel(image: array2<int>, region: Region, sqrt: real -> real, c: Channel, x: int, y: int)
    requires IsSqrt(sqrt) && c != White && InRegion(region, x, y) && InImage(image, x, y)
    ensures var s := StatsOf(RegionPixels(image, region), sqrt);
            TransformChannel(image[y, x], c, s, s) == ChannelInt(image[y, x], c)
  {
    var ps, p := RegionPixels(image, region), image[y, x];
    var s := StatsOf(ps, sqrt);
    RegionPixelsMember(image, region, p);
    if Sd(s, c) == 0.0 {
      SdZeroIff(ps, sqrt, c);
      var i :| 0 <= i < |ps| && ps[i] == p;
      assert ChannelValue(p, c) == Avg(s, c);
      RoundOfInteger(ChannelInt(p, c));
    } else {
      SameStatsKeepChannel(p, s, c);
    }
  }

  /** ... and so every in-image pixel of the region without an alpha byte. */
  lemma OwnStatsKeepPixel(image: array2<int>, region: Region, sqrt: real -> real, x: int, y: int)
    requires IsSqrt(sqrt) && InRegion(region, x, y) && InImage(image, x, y) && 0 <= image[y, x] < 0x100_0000
    ensures var s := StatsOf(RegionPixels(image, region), sqrt);
            TransformPixel(image[y, x], s, s) == image[y, x]
  {
    OwnStatsKeepChannel(image, region, sqrt, R, x, y);
    OwnStatsKeepChannel(image, region, sqrt, G, x, y);
    OwnStatsKeepChannel(image, region, sqrt, B, x, y);
    PackUnpack(image[y, x]);
  }

  /** The statistics of a region that is uniform in channel c send that
      channel of every pixel to the rounded, clamped target mean. */
  lemma UniformChannelTakesTargetMean(p: int, current: RgbColorStats, target: RgbColorStats, c: Channel)
    requires Sd(current, c) == 0.0
    ensures TransformChannel(p, c, current, target) == ClampRound(Avg(target, c))
  {
  }

  /** apply_region_rgb_color_stats: every in-image pixel of the region is
      replaced by its transformed pixel; every other pixel is left alone. The
      image is changed in place. */
  method ApplyRegionRgbColorStats(image: array2<int>, region: Region, colorStats: RgbColorStats,
                                  targetColorStats: RgbColorStats)
    modifies image
    ensures forall y, x :: 0 <= y < image.Length0 && 0 <= x < image.Length1 ==>
      image[y, x] == if InRegion(region, x, y) then TransformPixel(old(image[y, x]), colorStats, targetColorStats)
                     else old(image[y, x])
  {
    var y := region.y1;
    while y <= region.y2
      invariant y == region.y1 || region.y1 < y <= region.y2 + 1
      invariant forall yy, xx :: 0 <= yy < image.Length0 && 0 <= xx < image.Length1 ==>
        image[yy, xx] == if InRegion(region, xx, yy) && yy < y
                         then TransformPixel(old(image[yy, xx]), colorStats, targetColorStats)
                         else old(image[yy, xx])
      decreases region.y2 - y
    {
      ApplyRow(image, y, region.x1, region.x2, colorStats, targetColorStats);
      y := y + 1;
    }
  }

  /** The inner loop over the columns x1..x2 of row y. */
  method ApplyRow(image: array2<int>, y: int, x1: int, x2: int, colorStats: RgbColorStats,
                  targetColorStats: RgbColorStats)
    modifies image
    ensures forall yy, xx :: 0 <= yy < image.Length0 && 0 <= xx < image.Length1 ==>
      image[yy, xx] == if yy == y && x1 <= xx <= x2
                       then TransformPixel(old(image[yy, xx]), colorStats, targetColorStats)
                       else old(image[yy, xx])
  {
    var x := x1;
    while x <= x2
      invariant x == x1 || x1 < x <= x2 + 1
      invariant forall yy, xx :: 0 <= yy < image.Length0 && 0 <= xx < image.Length1 ==>
        image[yy, xx] == if yy == y && x1 <= xx < x
                         then TransformPixel(old(image[yy, xx]), colorStats, targetColorStats)
                         else old(image[yy, xx])
      decreases x2 - x
    {
      if x < 0 || y < 0 || x >= image.Length1 || y >= image.Length0 {
        x := x + 1;
        continue;
      }
      SetTransformedPixel(image, x, y, colorStats, targetColorStats);
      x := x + 1;
    }
  }

  /** The body of the inner loop for one in-image coordinate: unpack, transform
      each channel, round and clamp, repack, `image.setPixel(x, y, new_pixel)`. */
  method SetTransformedPixel(image: array2<int>, x: int, y: int, colorStats: RgbColorStats,
                             targetColorStats: RgbColorStats)
    requires InImage(image, x, y)
    modifies image
    ensures image[y, x] == TransformPixel(old(image[y, x]), colorStats, targetColorStats)
    ensures forall yy, xx :: 0 <= yy < image.Length0 && 0 <= xx < image.Length1 && (yy != y || xx != x) ==>
      image[yy, xx] == old(image[yy, xx])
  {
    var pixel := image[y, x];
    var newR := TransformChannel(pixel, R, colorStats, targetColorStats);
    var newG := TransformChannel(pixel, G, colorStats, targetColorStats);
    var newB := TransformChannel(pixel, B, colorStats, targetColorStats);
    var newPixel := Pack(newR, newG, newB);
    image[y, x] := newPixel;
  }
}
