# Colour statistics, lighting transfer, log listeners and file sizes

This project models the computational core of a small image tool:

- How ImageController measures a rectangular region: per-channel means and population standard deviations, plus a "white" channel `(r + g + b) / 3`.
- How it re-maps a region onto target statistics in place, one channel at a time.
- How it transfers lighting from a reference image through overlapping, cosine-weighted 32-pixel tiles.
- The listener list of LogController.
- The unit choice of `DisplayController.format_file_size`.

`src/lib/image_color.py` holds a free-function copy of the statistics and the re-mapping. It is line for line the same as the controller code, and the two share one model. The rows below cite both.

Modules:

- **Pixels** (`pixels.dfy`). Packed pixels `0x..RRGGBB` as `int`s; the channel masks `(p >> 16) & 0xFF`, `(p >> 8) & 0xFF` and `p & 0xFF`; the `(r << 16) | (g << 8) | b` packing; Python's `round` (nearest, ties to even); and `max(0, min(255, ·))`.
- **ColorStats** (`color_stats.dfy`).
  - `RGBColorStats` and the pixels a region visits: rows `y1..y2`, columns `x1..x2`, skipping every coordinate outside the image.
  - The statistics as functions of those pixels: `StatsOf`, built from `Mean`, `Variance` and `Sum` (Python's left-to-right `sum`).
  - The loop method `CalculateRegionRgbColorStats`, proved to compute them.
- **ColorTransform** (`color_transform.dfy`). `transform_value`, the per-channel rounding and clamping, and the in-place loop of `apply_region_rgb_color_stats` over an `array2<int>`.
- **LightingTransfer** (`lighting_transfer.dfy`). `apply_region_lighting_transfer`:
  - the tile loops (`range(y1, y2, 16)`, `range(x1, x2, 16)`), with tiles clipped to `x2`/`y2`;
  - per-tile statistics of both images and the cosine falloff weight;
  - the `weight_buffer` and `color_buffer` accumulation, as `array2<real>` and `array3<real>`;
  - the normalising second pass, which writes into a fresh copy of the target.

  What the first pass leaves in each buffer entry is specified by left folds in the loops' order (`RowFold`, `TilesFold`, `TotalAcc`). `TransferredPixel` gives the result pixel by pixel.
- **LogControl** (`log_controller.dfy`). A class whose `listeners: seq<L>` field the methods update: add without duplicates, remove the first occurrence, and broadcast in list order.
- **FileSize** (`display_controller.dfy`). The loop over B, KB, MB and GB that divides by 1024, with TB as the fall-through.

Two mathematical functions are parameters rather than definitions:

- `sqrt`, for `** 0.5`, constrained by `IsSqrt`.
- `cosPi`, for `np.cos(t * np.pi)`, constrained by `IsCosPi`.

Each lemma that needs them assumes exactly these properties and no more. Everything else is exact arithmetic on `int` and `real`.

The lighting transfer's results are stated for any statistics tables `targetStatsOf` and `referenceStatsOf` that agree with the tile statistics. These tables are ghost functions from tile to statistics. `ApplyRegionLightingTransfer` returns them and proves that they agree.

The lighting transfer has no global pre-shift of the region: each pixel is the weighted blend of the tiles that give it weight, and a pixel whose total weight is zero keeps the target's value (`src/controllers/image_controller.py:296-312`). Because a tile's weight is zero on its own first row and column, those pixels are exactly the region's first row and first column and everything outside the region. `KeepsTargetOutsideInterior` and `TotalWeightPositiveIff` state this.

## Model

| member | source | states |
|---|---|---|
| Pixels.Red | src/controllers/image_controller.py:57 | the red byte `(p >> 16) & 0xFF` is a channel value 0..255 for every integer pixel |
| Pixels.Green | src/controllers/image_controller.py:58 | the green byte `(p >> 8) & 0xFF` is a channel value 0..255 |
| Pixels.Blue | src/controllers/image_controller.py:59 | the blue byte `p & 0xFF` is a channel value 0..255 |
| Pixels.Pack | src/controllers/image_controller.py:170 | packing three channels gives a pixel below 2^24, with no alpha byte |
| Pixels.ShiftOrIsSum | src/controllers/image_controller.py:170 | on 32 bits the shift-and-or packing equals the arithmetic packing for channels below 256 |
| Pixels.UnpackPack | src/lib/image_color.py:142-160 | unpacking a packed pixel gives back its three channels |
| Pixels.PackUnpack | src/lib/image_color.py:141-160 | repacking the channels of a pixel below 2^24 gives the pixel back |
| Pixels.Round | src/controllers/image_controller.py:165-167 | `round` is within 1/2 of its argument and, on a tie, even |
| Pixels.RoundOfInteger | src/controllers/image_controller.py:165-167 | an integer rounds to itself |
| Pixels.Clamp | src/controllers/image_controller.py:165-167 | `max(0, min(255, n))` is a channel, is n for channels, 0 below and 255 above |
| Pixels.ClampRound | src/lib/image_color.py:155-157 | the written channel is in 0..255 and is `round(v)` whenever v already lies in [0, 255] |
| ColorStats.ChannelValue | src/controllers/image_controller.py:57-66 | each channel value, white included, lies in [0, 255] |
| ColorStats.RowPixels | src/lib/image_color.py:43-47 | defines the pixels the inner loop reads in row y: columns x1 to x2 in order, skipping columns outside the image and the whole row when y is outside it |
| ColorStats.RowsPixels | src/lib/image_color.py:42-47 | defines the pixels both loops read: the rows y1 to y2 in order, each contributing its RowPixels |
| ColorStats.RegionPixels | src/lib/image_color.py:42-47 | defines the pixels `calculate_region_rgb_color_stats` visits, in visit order |
| ColorStats.ClipLength | src/lib/image_color.py:42-45 | defines how many coordinates of a loop range survive the image-bounds test |
| ColorStats.Sum | src/lib/image_color.py:52-58 | defines the running sums and `sum(...)`, added from the left |
| ColorStats.SquaredDiffSum | src/lib/image_color.py:77-80 | defines `sum((x - avg) ** 2 for x in values)` |
| ColorStats.Mean | src/lib/image_color.py:71-74 | defines an average as the channel sum over `pixel_count` |
| ColorStats.Variance | src/lib/image_color.py:77-85 | defines the population variance, the squared deviations from the mean over `pixel_count` |
| ColorStats.StatsOf | src/lib/image_color.py:67-97 | defines the result: the all-zero record for no pixels, otherwise the count, the four means and the square roots of the four variances |
| ColorStats.Visit | src/lib/image_color.py:47-65 | defines one pass of the loop body: the counter, the four sums and the four value lists each take the pixel's values |
| ColorStats.VisitAll | src/lib/image_color.py:42-65 | defines the accumulators after visiting a sequence of pixels in order |
| ColorStats.AccumulatorsOf | src/lib/image_color.py:33-65 | defines the accumulators the loops leave, from the zero initial values |
| ColorStats.Summarize | src/lib/image_color.py:67-97 | defines the code after the loops: averages from the sums, sds from the value lists |
| ColorStats.Values | src/controllers/image_controller.py:70-73 | the value lists have one entry per visited pixel |
| ColorStats.StatsOfChannel | src/controllers/image_controller.py:80-94 | for a non-empty region each average is the channel mean and each sd the root of the population variance |
| ColorStats.CalculateRegionRgbColorStats | src/controllers/image_controller.py:25-106 | the loops compute exactly the statistics of the in-image pixels of the region |
| ColorStats.AccumulateRegion | src/lib/image_color.py:42-65 | the row loop leaves the accumulators of all visited pixels of the region |
| ColorStats.AccumulateRow | src/lib/image_color.py:43-65 | the column loop skips out-of-image coordinates and visits the others in order |
| ColorStats.SummarizeIsStatsOf | src/lib/image_color.py:67-97 | the tail of the function (the zero record or averages and sds) applied to the accumulators is the statistics of the pixels |
| ColorStats.AccumulatorsOfIsTally | src/controllers/image_controller.py:61-74 | the accumulators hold the pixel count, the value lists and their sums |
| ColorStats.RowPixelsCount | src/controllers/image_controller.py:52-74 | a row contributes one pixel per in-image column, none when the row is outside the image |
| ColorStats.RowsPixelsCount | src/controllers/image_controller.py:51-74 | the visited pixels number the in-image width times the in-image height |
| ColorStats.RegionPixelCount | src/controllers/image_controller.py:51-74 | `pixel_count` is the number of region coordinates inside the image |
| ColorStats.EmptyRegion | src/controllers/image_controller.py:76-77 | the all-zero record comes back exactly when no region coordinate lies in the image |
| ColorStats.RowPixelsMember | src/lib/image_color.py:43-47 | a value is visited in a row iff it is the pixel at an in-image column of it |
| ColorStats.RowsPixelsMember | src/lib/image_color.py:42-47 | a value is visited iff it is the pixel at an in-image coordinate of the rows |
| ColorStats.RegionPixelsMember | src/controllers/image_controller.py:51-56 | a value is visited iff it sits at an in-image coordinate of the region; nothing outside is read |
| ColorStats.SumBounds | src/controllers/image_controller.py:61-67 | a sum of values in [0, 255] lies in [0, 255 times the count] |
| ColorStats.AverageBounds | src/controllers/image_controller.py:80-83 | every average of a non-empty region lies in [0, 255] |
| ColorStats.WhiteSum | src/lib/image_color.py:57-58 | three times the white sum is the sum of the three channel sums |
| ColorStats.WhiteIsMeanOfChannels | src/lib/image_color.py:57-74 | `avg_white` is the mean of `avg_r`, `avg_g` and `avg_b` |
| ColorStats.SquaredDiffSumNonNegative | src/controllers/image_controller.py:86-89 | a sum of squared deviations is never negative |
| ColorStats.SquaredDiffSumZero | src/controllers/image_controller.py:86-89 | the squared deviations sum to 0 iff every value equals the mean |
| ColorStats.VarianceNonNegative | src/lib/image_color.py:77-85 | the population variance is non-negative |
| ColorStats.SdIsRootOfVariance | src/lib/image_color.py:82-85 | each sd is the non-negative root of the population variance |
| ColorStats.SdZeroIff | src/controllers/image_controller.py:86-94 | an sd is 0 iff every visited pixel has the channel average as its value |
| ColorStats.SqrtZeroIff | src/controllers/image_controller.py:91-94 | `v ** 0.5` is 0 iff v is 0 for non-negative v |
| ColorStats.SumOfConstant | src/controllers/image_controller.py:61-67 | summing n copies of v gives n times v |
| ColorStats.UniformChannel | src/lib/image_color.py:71-85 | a channel with one value throughout has that value as mean and sd 0 |
| ColorStats.BlackAndWhiteBlock | src/controllers/image_controller.py:25-106 | a 2 x 2 block of two black and two white pixels has count 4, and 127.5 for every average and sd |
| ColorTransform.TransformValue | src/controllers/image_controller.py:136-143 | the target mean when the current sd is 0; otherwise (r - target mean) times current sd equals (v - current mean) times target sd |
| ColorTransform.TransformIdentity | src/lib/image_color.py:126-133 | with equal (mean, sd) on both sides and sd not 0 the value is returned unchanged |
| ColorTransform.TransformRoundTrip | src/controllers/image_controller.py:136-143 | mapping to other statistics and back returns the value when both sds are non-zero |
| ColorTransform.TransformChannel | src/controllers/image_controller.py:157-167 | every new channel is in 0..255 and, for a current sd of 0, is the rounded clamped target mean |
| ColorTransform.TransformPixel | src/lib/image_color.py:147-160 | the new pixel is below 2^24 and unpacks to the three transformed channels |
| ColorTransform.SameStatsKeepChannel | src/lib/image_color.py:126-157 | with equal current and target statistics and a non-zero sd a channel is unchanged |
| ColorTransform.ChannelInt | src/controllers/image_controller.py:152-154 | the integer channel of a pixel is a channel value equal to its real value |
| ColorTransform.SameStatsKeepPixel | src/lib/image_color.py:141-160 | with equal statistics and all sds non-zero a pixel without alpha is unchanged |
| ColorTransform.OwnStatsKeepChannel | src/lib/image_color.py:126-157 | matching a region to its own statistics keeps each channel of every in-image pixel, including channels with sd 0 |
| ColorTransform.OwnStatsKeepPixel | src/controllers/image_controller.py:136-171 | matching a region to its own statistics keeps every in-image pixel without alpha |
| ColorTransform.UniformChannelTakesTargetMean | src/controllers/image_controller.py:138-167 | a channel with current sd 0 becomes the rounded clamped target mean whatever its value |
| ColorTransform.ApplyRegionRgbColorStats | src/controllers/image_controller.py:108-173 | in-image pixels of the region become their transformed pixel; every other pixel is unchanged |
| ColorTransform.ApplyRow | src/lib/image_color.py:137-161 | one row of the region is transformed at its in-image columns and nothing else changes |
| ColorTransform.SetTransformedPixel | src/lib/image_color.py:141-161 | `setPixel` writes the repacked transformed pixel at (x, y) and changes no other pixel |
| LightingTransfer.TileRect | src/controllers/image_controller.py:213-216 | a tile starts at its origin, is at most 32 wide and high, and lies inside the region, at least 2 pixels wide and high |
| LightingTransfer.NormDist | src/controllers/image_controller.py:239-255 | the normalised distance from the clipped tile's centre is non-negative |
| LightingTransfer.TileWeight | src/controllers/image_controller.py:257-261 | the weight is in [0, 1], and 0 from normalised distance 1 on |
| LightingTransfer.NormDistBelowOne | src/controllers/image_controller.py:239-257 | a tile pixel is below normalised distance 1 iff it is in neither the tile's first row nor its first column |
| LightingTransfer.CoverWeight | src/controllers/image_controller.py:232-261 | a tile's weight is 0 off the tile and on its first row and column, and positive elsewhere on it |
| LightingTransfer.BlendedPixel | src/controllers/image_controller.py:299-311 | the normalised pixel is packed from clamped channels and is below 2^24 |
| LightingTransfer.LightingRegion | src/controllers/image_controller.py:203-264 | the region has a non-negative size, as the buffer shapes need, and lies in the image whenever it yields a tile, since the pixel reads are not bounds-checked |
| LightingTransfer.TileStats | src/controllers/image_controller.py:227-229 | defines a tile's statistics as `calculate_region_rgb_color_stats` of the image over that tile |
| LightingTransfer.PixelContribution | src/controllers/image_controller.py:263-294 | defines what one tile adds at a pixel: the weight, and each transformed, rounded and clamped channel times the weight |
| LightingTransfer.Contribution | src/controllers/image_controller.py:232-294 | defines a tile's contribution at (x, y): PixelContribution with the falloff weight inside the tile, nothing outside |
| LightingTransfer.RowFold | src/controllers/image_controller.py:211-294 | defines the first pass over one tile row as a left fold over the origins `range(x1, x2, 16)` in loop order |
| LightingTransfer.TilesFold | src/controllers/image_controller.py:210-294 | defines the first pass as a left fold of rows of tiles over `range(y1, y2, 16)` |
| LightingTransfer.TotalAcc | src/controllers/image_controller.py:206-294 | defines what the first pass leaves at a pixel, from zeroed buffers |
| LightingTransfer.TransferredPixel | src/controllers/image_controller.py:201-312 | defines the result pixel: the blended pixel where the region pixel has positive total weight, the target's copy elsewhere |
| LightingTransfer.RowWeight | src/controllers/image_controller.py:211-291 | defines the weight alone that one tile row adds at a pixel, free of statistics and of the heap |
| LightingTransfer.TilesWeight | src/controllers/image_controller.py:210-291 | defines the weight alone that all tile rows add at a pixel |
| LightingTransfer.AccumulatePixel | src/controllers/image_controller.py:235-294 | one pixel of a tile adds the weight and the weighted new channels to its own buffer entry only |
| LightingTransfer.AccumulateTileRow | src/controllers/image_controller.py:233-294 | one row of a tile adds the tile's contribution to that row's entries |
| LightingTransfer.AccumulateTile | src/controllers/image_controller.py:232-294 | a tile adds its contribution to every buffer entry |
| LightingTransfer.AccumulateTileRowOfTiles | src/controllers/image_controller.py:211-294 | a row of tiles takes each entry from its old value to the fold of the row's tiles |
| LightingTransfer.AccumulateTileAt | src/controllers/image_controller.py:213-229 | one tile's statistics and contribution advance the row's fold by one tile |
| LightingTransfer.AccumulateTileOfRow | src/controllers/image_controller.py:232-294 | the pixel loops of one tile advance the row's fold by one tile |
| LightingTransfer.RowFoldStep | src/controllers/image_controller.py:211-294 | one more tile contribution takes the rest of a tile row one tile on |
| LightingTransfer.AccumulateTiles | src/controllers/image_controller.py:210-294 | the tile loops leave every entry at the fold of all tiles |
| LightingTransfer.WriteBlendedPixel | src/controllers/image_controller.py:299-312 | a positive-weight entry is normalised and written to its pixel, and nothing else changes |
| LightingTransfer.WriteBlendedRow | src/controllers/image_controller.py:298-312 | one buffer row writes exactly the positive-weight entries |
| LightingTransfer.WriteBlended | src/controllers/image_controller.py:297-312 | the second pass writes exactly the positive-weight entries at `(x + x1, y + y1)` |
| LightingTransfer.NoTilesNoAcc | src/controllers/image_controller.py:210-211 | with `x1 >= x2` or `y1 >= y2` no tile is produced and nothing is accumulated |
| LightingTransfer.StatsTable | src/controllers/image_controller.py:227-229 | the table gives the statistics of the image over every tile of the region |
| LightingTransfer.FirstPass | src/controllers/image_controller.py:204-294 | from zeroed buffers every entry ends at the total of all tiles' contributions at its pixel |
| LightingTransfer.ApplyRegionLightingTransfer | src/controllers/image_controller.py:176-314 | a fresh image of the target's size, equal to the target except at blended pixels of the region; the target is not modified |
| LightingTransfer.WrittenIsTransferred | src/controllers/image_controller.py:297-312 | the second pass over a copy of the target, with buffers holding each pixel's total, leaves the transferred pixel everywhere |
| LightingTransfer.BlendsInRegion | src/controllers/image_controller.py:204-312 | an entry gets weight only when the region has a tile, and then its pixel is in the image |
| LightingTransfer.ContributionWeight | src/controllers/image_controller.py:257-291 | the weight a tile adds at a pixel is its cover weight |
| LightingTransfer.RowFoldWeight | src/controllers/image_controller.py:211-291 | the weight part of a row's fold is the sum of the row's cover weights |
| LightingTransfer.TilesFoldWeight | src/controllers/image_controller.py:210-291 | the weight part of the whole fold is the sum of all cover weights |
| LightingTransfer.RowWeightOutside | src/controllers/image_controller.py:211-261 | outside the region's interior no tile of a row adds weight |
| LightingTransfer.TilesWeightOutside | src/controllers/image_controller.py:210-261 | outside the region's interior no tile adds weight |
| LightingTransfer.RowWeightGrows | src/controllers/image_controller.py:257-291 | tile weights never lower the accumulated weight |
| LightingTransfer.TilesWeightGrows | src/controllers/image_controller.py:257-291 | the whole tile loop never lowers the accumulated weight |
| LightingTransfer.RowWeightReaches | src/controllers/image_controller.py:211-261 | the row loop reaches the origin `x1 + 16k`, whose tile gives positive weight to x in `(x1 + 16k, x1 + 16k + 16]` |
| LightingTransfer.TilesWeightReaches | src/controllers/image_controller.py:210-261 | some tile gives positive weight to every pixel with x in `(x1 + 16kx, x1 + 16kx + 16]` and y likewise |
| LightingTransfer.TotalWeightPositiveIff | src/controllers/image_controller.py:210-299 | the accumulated weight is positive iff x1 < x <= x2 and y1 < y <= y2 |
| LightingTransfer.KeepsTargetOutsideInterior | src/controllers/image_controller.py:201-299 | pixels outside the region and on its first row or column keep the target's value |
| LightingTransfer.BlendsInsideInterior | src/controllers/image_controller.py:299-312 | every other region pixel receives weight and is the blended pixel |
| LightingTransfer.AddProportional | src/controllers/image_controller.py:291-294 | sums proportional to one pixel stay so when added |
| LightingTransfer.SelfContribution | src/controllers/image_controller.py:264-294 | a tile matched to its own statistics contributes sums proportional to the pixel |
| LightingTransfer.RowFoldSelf | src/controllers/image_controller.py:211-294 | with the target as reference a row of tiles keeps the sums proportional to the pixel |
| LightingTransfer.TilesFoldSelf | src/controllers/image_controller.py:210-294 | with the target as reference all tiles keep the sums proportional to the pixel |
| LightingTransfer.BlendProportional | src/controllers/image_controller.py:301-311 | normalising sums proportional to a pixel without alpha gives that pixel |
| LightingTransfer.SelfTransferKeepsPixel | src/controllers/image_controller.py:176-314 | transferring an image's lighting onto itself gives back every pixel without alpha, for any cosine |
| LightingTransfer.AddInRange | src/controllers/image_controller.py:291-294 | sums between 0 and 255 times the weight stay so when added |
| LightingTransfer.ContributionInRange | src/controllers/image_controller.py:286-294 | each tile contribution has weight >= 0 and channel sums between 0 and 255 times it |
| LightingTransfer.RowFoldInRange | src/controllers/image_controller.py:211-294 | a row of tiles keeps the sums in range |
| LightingTransfer.TilesFoldInRange | src/controllers/image_controller.py:210-294 | all tiles keep the sums in range |
| LightingTransfer.BlendNeedsNoClamp | src/controllers/image_controller.py:301-311 | every weighted average lies in [0, 255], so the blended pixel is the packed rounded averages and the clamp never changes it |
| LogControl.WithListener | src/controllers/log_controller.py:9-12 | after adding, the listener is present, and the members are the old ones plus it |
| LogControl.FirstIndex | src/controllers/log_controller.py:17 | the position `list.remove` takes is the first occurrence |
| LogControl.WithoutListener | src/controllers/log_controller.py:14-17 | an absent listener leaves the list as it is; a present one loses exactly one copy (one shorter, multiset minus the listener), and that copy is its first occurrence, the other listeners keeping their order |
| LogControl.AddKeepsNoDuplicates | src/controllers/log_controller.py:11-12 | adding never creates a duplicate |
| LogControl.AddIdempotent | src/controllers/log_controller.py:11-12 | adding a listener twice is the same as adding it once |
| LogControl.AddAppends | src/controllers/log_controller.py:11-12 | a new listener goes to the end and the existing order is unchanged |
| LogControl.RemoveFromNoDuplicates | src/controllers/log_controller.py:14-17 | from a duplicate-free list removal leaves the listener absent, one shorter, and still duplicate-free |
| LogControl.AddThenRemove | src/controllers/log_controller.py:9-17 | removing a just-added new listener gives the old list back |
| LogControl.LogController.constructor | src/controllers/log_controller.py:6-7 | a new controller starts with no listeners |
| LogControl.LogController.AddListener | src/controllers/log_controller.py:9-12 | the list becomes the old one with the listener added when absent, and stays duplicate-free |
| LogControl.LogController.RemoveListener | src/controllers/log_controller.py:14-17 | the list loses the listener's occurrence, the listener is absent after, and the list stays duplicate-free |
| LogControl.LogController.LogMessage | src/controllers/log_controller.py:19-22 | one call per listener, in list order, each with the message |
| LogControl.BroadcastOnce | src/controllers/log_controller.py:19-22 | with no duplicates every registered listener is called exactly once |
| FileSize.UnitAt | src/controllers/display_controller.py:21-25 | the units in the loop's order, TB last |
| FileSize.Pow1024 | src/controllers/display_controller.py:24 | powers of 1024 are at least 1 |
| FileSize.UnitIndex | src/controllers/display_controller.py:21-25 | the chosen unit index is 0 to 4 |
| FileSize.RepeatedDivision | src/controllers/display_controller.py:24 | dividing k times by 1024 is dividing by 1024^k |
| FileSize.Divided | src/controllers/display_controller.py:21-25 | defines the value of `size` after k passes of `size /= 1024` |
| FileSize.UnitIndexIsFirst | src/controllers/display_controller.py:21-24 | the chosen index is the first at which the divided size is below 1024 |
| FileSize.FormatFileSize | src/controllers/display_controller.py:11-25 | the value is size divided once per earlier unit, each earlier unit failed the < 1024 test, and non-TB values are below 1024 |
| FileSize.SmallSizeInBytes | src/controllers/display_controller.py:22-23 | a size below 1024 is shown in bytes as it is |
| FileSize.ChosenUnitIsUnitIndex | src/controllers/display_controller.py:21-25 | any result meeting the method's contract has the unit UnitIndex picks |
| FileSize.TerabytesAtLeastOne | src/controllers/display_controller.py:21-25 | TB is chosen exactly when size / 1024^4 is at least 1, both directions |
| FileSize.UnitMonotone | src/controllers/display_controller.py:21-25 | a larger size never selects a smaller unit |

## Left out

- Floating point. Means, variances, weights and buffers are exact `real`s. Python floats and numpy's float32 buffers round, and the model does not follow that rounding. In `FormatFileSize`, `size /= 1024` divides by a power of two. It runs only on sizes of at least 1024, so it is exact for every finite float size. An integer size above 2^53 is rounded by its first division, which the model does not follow. NaN and infinity, which the source reports as `nan TB` and `inf TB`, have no counterpart among the reals and are not modelled.
- `** 0.5` and `np.cos(t * np.pi)` become the parameters `sqrt` and `cosPi`, whose values are constrained only by `IsSqrt` and `IsCosPi`.
- QImage. An image is an `array2<int>` of packed pixels, and `image.pixel`/`setPixel` are array reads and writes; image formats are not modelled.
  - The alpha byte is not modelled. Read pixels may carry any bits above the colour bytes, which the masks drop. The lemmas that give a pixel back unchanged ask for a pixel below 2^24.
  - `target_image.copy()` is a fresh array with the target's contents.
- `apply_region_lighting_transfer` reads target pixels without a bounds check, and numpy refuses negative buffer sizes. `LightingRegion` states both as a precondition: the region is not of negative size, and lies in the image whenever it has a tile.
- ApplyRegionLightingTransfer:
  - it does not check that the reference image is at least as large as the target; the tile statistics skip out-of-image coordinates of either image, as `calculate_region_rgb_color_stats` does;
  - the `if tile_x1 >= x2 or tile_y1 >= y2: continue` test can never fire inside `range(x1, x2, 16)`, so it is not modelled;
  - the docstring's "16x16 tiles with 8-pixel overlap" disagrees with the constants, and the model uses the constants 32 and 16.
- ApplyRegionLightingTransfer states its result for the ghost tables it returns, not through per-call statistics records. In the loop, each tile's statistics come from `CalculateRegionRgbColorStats` and are proved equal to the tables at that tile.
- `apply_region_rgb_color_stats` returns the image it was given. That return is not modelled; the method changes the array in place.
- LogControl.LogController.LogMessage: the listeners' own effects are not modelled. The model returns the sequence of calls made, so it does not capture a listener that changes the list while the loop runs.
- FormatFileSize: the `f"{size:.2f} {unit}"` text is not produced; the method returns the value and the unit.
- The UI, the face controller, dependency injection and the application start-up are not part of this model.
