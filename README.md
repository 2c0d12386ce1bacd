# Histogram matching and tiled 8-bit rewrite, modelled in Dafny

This project models the computational core of a set of QGIS Processing
plugins that match the colours of a source satellite raster to a reference
raster. The plugins then rewrite the result as a grid of georeferenced
5 km tiles.

- `HistogramMatching.py` (the "8 bits" variant):
  - builds the cumulative histogram of every band, in `histograms.dfy`;
  - derives the desaturation tuple `(min_ref, min_match, pas_match, pas_ref)` and, from it, a transformation table that maps each source intensity to a reference intensity, in `histogram_matching.dfy`;
  - snaps the working extent to a 5000-unit grid and lists the tiles with their names, paths and geotransforms, in `tile_grid.dfy`. The string trick `int(str(int(v))[2:])` is modelled on digit strings in `decimal.dfy`;
  - rewrites every pixel of a tile through the tables, behind a no-data and alpha-mask gate, into four freshly allocated rasters, in `tile_raster.dfy`.
- `EgalisationColorimetrique.py` (the contrast-stretch variant):
  - computes, per band, a `(min, max)` stretch from the 10th and 90th percentile bins of the two cumulative histograms;
  - stops the run when the red band yields `(0, 0)`.
  - Both are in `equalization.dfy`.
- `rmDuplicateLine.py` is a command-line script:
  - it reads two file names from the argument vector;
  - it copies the input lines to the output, keeping only the first occurrence of each line;
  - both are in `dedup.dfy`.

Python `float` arithmetic is modelled as exact `real` arithmetic. `int()` on a float is `PyNum.Trunc`, which truncates toward zero. A Python crash on some input (`ZeroDivisionError`, `IndexError`, `ValueError`) becomes a `requires` on the model, because the source demands that its callers avoid it. An early return that reports failure becomes a result:
- `Option.None` for an empty red histogram;
- `Outcome.Failure` for a red `(0, 0)` stretch.

The model follows the code where it differs from what a caller might expect:

- A caller might expect the stretch variant to fail cleanly when the reference percentiles coincide. The code divides by `ref_seuil_fin - ref_seuil_debut` unguarded (`EgalisationColorimetrique.py:131`), so the model requires that difference to be non-zero (`StretchDefined`). `EmptyReferenceIsDegenerate` shows that an all-zero reference histogram breaks that requirement.
- One might expect every table entry to be a reference bin, in `[0, max_ref - 1]`. The extrapolation reaches `max_ref` exactly at `max_match` (`RefValueAtMaxMatch`), and `TableCanReachMaxRef` exhibits a table with that entry.
- The tile height is computed from the X pixel size (`HistogramMatching.py:454`), as written. The pixel-fit lemma is stated for square pixels.
- The caller of the stretch variant reads `(0, 0)` as "no histogram". A valid histogram whose 10th and 90th percentile bins are both bin 0 also yields `(0, 0)`, and the run is stopped (`ZeroPairMeansFailure`).

## Model

| member | source | states |
|---|---|---|
| `PyNum.Trunc` | HistogramMatching.py:239 | `int()` of a float truncates toward zero: the result is the integer at most `r` away from `r` by less than one, on the side of zero |
| `Histograms.Cumulative` | HistogramMatching.py:357-358 | the cumulative histogram has one entry per bin |
| `Histograms.CumulativeStep` | HistogramMatching.py:357-358 | entry 0 is the first bin and each later entry adds its bin to the previous one |
| `Histograms.CumulativeEnds` | HistogramMatching.py:357-358 | the last cumulative entry is the total pixel count (the sum of all bins) |
| `Histograms.CumulativeNonDecreasing` | HistogramMatching.py:357-358 | the cumulative histogram of non-negative counts is non-decreasing and non-negative |
| `Histograms.CountBelow` | HistogramMatching.py:233-237 | the count `k` of a count-then-break loop: every entry before `k` is below the threshold, and entry `k` (if any) is not |
| `Histograms.CountBelowUnique` | HistogramMatching.py:233-237 | those two facts determine the count, so any loop that stops there computes it |
| `Histograms.CountBelowMonotone` | EgalisationColorimetrique.py:94-108 | raising the threshold never lowers the count; a helper used by `ThresholdsOrdered` for the 10% and 90% loops and by `HistogramMatching.LeadCountMonotone` |
| `Histograms.LeadingBelow` | EgalisationColorimetrique.py:94-99 | the for/break counting loop returns exactly the count of leading entries below the threshold |
| `HistogramMatching.MinRef` | HistogramMatching.py:239 | `min_ref` is a valid index of a non-empty reference histogram, and 0 for an empty one |
| `HistogramMatching.MaxMatch` | HistogramMatching.py:232-237 | `max_match` is at most the number of match bins |
| `HistogramMatching.SaturationLevel` | HistogramMatching.py:234 | definition of the clip level `c[-1] - c[-1]*s/100`; its use is stated by `MaxMatch` (a count of leading match bins) and `GetDesaturationTuple` (the loop of lines 233-237 stops at the first bin at or above it) |
| `HistogramMatching.RefLevelAtMinRef` | HistogramMatching.py:242 | definition of the reference fraction `ref_cumulhist[min_ref]/ref_cumulhist[-1]`; `MinRef` proves the index is inside the reference, and `MinMatch` and `GetDesaturationTuple` state the count taken against it |
| `HistogramMatching.MinMatch` | HistogramMatching.py:240-245 | `min_match` is at most the number of match bins |
| `HistogramMatching.DesaturationOf` | HistogramMatching.py:229-250 | the tuple `(min_ref, min_match, pas_match, pas_ref)` of the two counts and the steps; `min_ref` indexes a non-empty reference histogram, `min_match` is at most the match bin count, and an empty reference gives `min_ref = 0` and `pas_ref = 0` |
| `HistogramMatching.GetDesaturationTuple` | HistogramMatching.py:229-250 | the two counting loops and the steps yield the desaturation tuple of the inputs; `min_ref` indexes the reference histogram |
| `HistogramMatching.PasRefBounds` | HistogramMatching.py:239-248 | `pas_ref` lies between `max_ref/100` and `max_ref/100 + 1/d`: one percentage point of the reference domain, up to the rounding of `min_ref` |
| `HistogramMatching.LeadCount` | HistogramMatching.py:255-260 | the count of `getRefValue`'s loop never exceeds the number of reference bins |
| `HistogramMatching.LeadCountSpec` | HistogramMatching.py:256-260 | every counted bin passed both tests of line 257, and the bin at the count fails one of them |
| `HistogramMatching.LeadCountUnique` | HistogramMatching.py:256-260 | those facts determine the count |
| `HistogramMatching.LeadingRefBins` | HistogramMatching.py:255-260 | the loop's result is that count |
| `HistogramMatching.Extrapolate` | HistogramMatching.py:263-264 | defines `int(min_ref + (indice - min_match)/pas_match * pas_ref)`; its properties are stated by `ExtrapolateMonotone` and `LineThroughEnds` |
| `HistogramMatching.RefValue` | HistogramMatching.py:252-266 | the count, or the extrapolation once the count reaches `min_ref`; a count that stops short is a reference bin below `min_ref` |
| `HistogramMatching.GetRefValue` | HistogramMatching.py:252-266 | the method returns the reference value of the intensity: the count, or its extrapolation once the count reaches `min_ref` |
| `HistogramMatching.RefValueCases` | HistogramMatching.py:262-266 | the value is either a count below `min_ref` returned unchanged, or the extrapolation |
| `HistogramMatching.LeadCountMonotone` | HistogramMatching.py:256-257 | for a cumulative match histogram, a brighter intensity never gets a smaller count |
| `HistogramMatching.ExtrapolateMonotone` | HistogramMatching.py:263-264 | with positive steps the extrapolation is non-decreasing in the intensity |
| `HistogramMatching.LineThroughEnds` | HistogramMatching.py:263-264 | the extrapolation maps `min_match` to `min_ref`, and `max_match` to the `max_ref` its steps were built from |
| `HistogramMatching.ExtrapolationEndpoints` | HistogramMatching.py:247-264 | with the tuple of the inputs, the extrapolation maps `min_match` to `min_ref` and `max_match` to `max_ref` |
| `HistogramMatching.RefValueAtMaxMatch` | HistogramMatching.py:262-264 | when the count at `max_match` reaches `min_ref`, the table entry there is `max_ref`, one past the last reference bin |
| `HistogramMatching.TransformationTable` | HistogramMatching.py:361 | the table has one entry per match bin |
| `HistogramMatching.TableShape` | HistogramMatching.py:361 | below the desaturation cut-off the table is non-decreasing and stays in `[0, min_ref)`; once an intensity is extrapolated, every brighter one is extrapolated too |
| `HistogramMatching.TableExtrapolatedMonotone` | HistogramMatching.py:361 | in the extrapolated part (positive steps) the table is non-decreasing |
| `HistogramMatching.ExampleCounts` | HistogramMatching.py:233-245 | concrete counts of the loops on the cumulative histogram `[1, 2, 3, 4]` |
| `HistogramMatching.ExampleTuple` | HistogramMatching.py:229-250 | for `[1, 2, 3, 4]` on both sides and `d = 50`, the tuple is `(2, 2, 1/50, 2/50)` |
| `HistogramMatching.ExampleTable` | HistogramMatching.py:361 | the table for that tuple is `[0, 1, 2, 4]` |
| `HistogramMatching.TableCanReachMaxRef` | HistogramMatching.py:357-361 | from the histogram `[1, 1, 1, 1]` on both sides, the table's last entry is `max_ref = 4`, outside the reference domain |
| `HistogramMatching.BuildBandTable` | HistogramMatching.py:357-361 | one band's table is computed from its two histograms and has one entry per match bin |
| `HistogramMatching.BandTable` | HistogramMatching.py:357-361 | definition of one band's table from its two histograms; `BuildBandTable` computes it and proves one entry per match bin, and `TableShape` orders and bounds the entries of the table it is built from |
| `HistogramMatching.BuildTables` | HistogramMatching.py:349-391 | no tables exactly when the red match histogram is empty; otherwise the three band tables, each sized by its match histogram |
| `Decimal.NatStr` | HistogramMatching.py:429 | the decimal string of a natural number is non-empty and all digits |
| `Decimal.ParseNatStr` | HistogramMatching.py:429 | `int(str(n))` gives back `n` |
| `Decimal.PyTail` | HistogramMatching.py:429 | `int(str(n)[2:])` is a non-negative number with at most as many digits as `str(n)` has characters after the first two |
| `Decimal.PyTailSixDigits` | HistogramMatching.py:429 | for a six-digit number, `int(str(n)[2:])` is its last four digits |
| `Decimal.PyTailFiveDigits` | HistogramMatching.py:429 | for a five-digit number, `int(str(n)[2:])` is only its last three digits |
| `Decimal.StrSign` | HistogramMatching.py:506 | `str(n)` starts with a minus sign exactly when `n` is negative |
| `Decimal.StrInjective` | HistogramMatching.py:506 | two integers with the same decimal string are equal |
| `TileGrid.SnapLow` | HistogramMatching.py:429-437 | a snapped minimum is a multiple of 5000 |
| `TileGrid.Base` | HistogramMatching.py:431-449 | `int(v/10000)*10000` is a multiple of 5000 (the base every snapping branch adds to); `SnapLowCorrect` and `SnapHighCorrect` state the snapped values built on it |
| `TileGrid.SnapHigh` | HistogramMatching.py:439-451 | a zero tail keeps the maximum unchanged; any other tail gives a whole multiple of 5000 |
| `TileGrid.GridAsWritten` | HistogramMatching.py:429-451 | the snapping with the tail `int(str(int(v))[2:])` as written; its minima are multiples of 5000 |
| `TileGrid.SnappedGrid` | HistogramMatching.py:429-451 | the snapping with the tail taken as the last four digits; its minima are multiples of 5000 |
| `TileGrid.GridAgreesOnSixDigits` | HistogramMatching.py:429-451 | on six-digit coordinates the snapping as written equals the snapping on the last four digits |
| `TileGrid.SnapLowCorrect` | HistogramMatching.py:429-437 | a snapped minimum is the multiple of 5000 at or just below the coordinate |
| `TileGrid.SnapHighCorrect` | HistogramMatching.py:439-451 | a snapped maximum is the multiple of 5000 at or just above the coordinate |
| `TileGrid.SnappedGridBounds` | HistogramMatching.py:429-451 | for a whole-numbered extent, each snapped edge is a multiple of 5000 within one cell outside the original edge |
| `TileGrid.CellCount` | HistogramMatching.py:465-466 | defines `int((hi - lo)/5000)` as the number of iterations of `range`, none when negative; `CellsInsideGrid` states its bound |
| `TileGrid.Columns` | HistogramMatching.py:465 | the number of columns of the outer loop |
| `TileGrid.Rows` | HistogramMatching.py:466 | the number of rows of the inner loop |
| `TileGrid.CellsInsideGrid` | HistogramMatching.py:465-466 | the loop bounds `int((fe_max - fe_min)/5000)` keep every cell inside the snapped extent |
| `TileGrid.AxisCovers` | HistogramMatching.py:465-469 | on a snapped axis, every coordinate lies in the cell that `CellOf` gives it, and that cell is one of the loop's |
| `TileGrid.SnappedAxisCovers` | HistogramMatching.py:429-466 | on an axis snapped from whole-numbered ends, every coordinate between them falls in a listed cell |
| `TileGrid.GridCoversExtent` | HistogramMatching.py:429-469 | with the corrected snapping, every point of the extent lies in a cell of the tile loop |
| `TileGrid.AsWrittenMissesExampleTop` | HistogramMatching.py:446-466 | for the extent `(12345, 67890, 34567, 89012)` the snapping as written stops at `y = 85000`, and the five rows end below the extent's top |
| `TileGrid.SnappedExample` | HistogramMatching.py:429-466 | the corrected snapping of that extent is `(10000, 65000, 35000, 90000)`: five columns and five rows |
| `TileGrid.TileSize` | HistogramMatching.py:453-454 | the tile size in pixels is non-negative |
| `TileGrid.TileSizeFits` | HistogramMatching.py:453-454 | `int(5000/res)` pixels of size `res` fit in 5000 units, and one more do not |
| `TileGrid.BeforeFirstDot` | HistogramMatching.py:460-461 | `split('.')[0]` is the longest dot-free prefix of the output path |
| `TileGrid.TileName` | HistogramMatching.py:506 | defines the name `PSUD_SAT50_<x>_<y>_2019_5KM` of the written file (line 468 logs the same name); `TileNameInjective` states that it determines the corner |
| `TileGrid.TileAt` | HistogramMatching.py:465-512 | defines tile `(i, j)`: its extent (line 469), file path (line 506) and geotransform `(x_min, res_x, 0, y_max, 0, -res_y)` (line 512); `TileAtShape` and `TilePixelsFit` state its properties |
| `TileGrid.TileAtShape` | HistogramMatching.py:465-512 | tile `(i, j)` is the 5000-unit square at `(fe_xmin + 5000 i, fe_ymin + 5000 j)`, and its geotransform puts pixel `(0, 0)` at the square's top-left corner |
| `TileGrid.TilePixelsFit` | HistogramMatching.py:453-512 | with square pixels, the geotransform puts the far corner of the last pixel within one pixel inside the tile's bottom-right corner |
| `TileGrid.TileNameInjective` | HistogramMatching.py:506 | distinct corners give distinct tile names |
| `TileGrid.TilePathsDistinct` | HistogramMatching.py:506 | distinct cells of the loop are written to distinct files |
| `TileGrid.PlanTiles` | HistogramMatching.py:465-519 | the nested loops produce the tiles column by column, in the order the list of VRT inputs receives them |
| `TileGrid.TilesUpToCells` | HistogramMatching.py:465-466 | after `n` columns, the list has `n * rows` tiles, and entry `k` is the cell `(k / rows, k % rows)` |
| `TileGrid.Column` | HistogramMatching.py:466 | one column of the inner loop has `rows` tiles; `TilesUpToCells` gives each tile's cell |
| `TileGrid.TilesUpTo` | HistogramMatching.py:465-466 | definition of the tiles after `n` columns of the outer loop; `TilesUpToCells` states its length and its entries, and `PlanTiles` computes it by the nested loops |
| `TileGrid.Plan` | HistogramMatching.py:465-519 | definition of the whole tile list; `PlanTiles` computes it and `EveryCellPlanned` proves every cell appears once, at position `i * rows + j` |
| `TileGrid.EveryCellPlanned` | HistogramMatching.py:465-519 | every cell of the grid appears in the plan, at position `i * rows + j` |
| `TileRaster.PyIndex` | HistogramMatching.py:489 | Python indexing, negative indices included, returns an entry of the table |
| `TileRaster.Lookup` | HistogramMatching.py:485-501 | the looked-up value is an entry of the table |
| `TileRaster.LookupCases` | HistogramMatching.py:485-489 | a value past the table's end reads the last entry, an in-range value reads its entry, and every lookup is a table entry |
| `TileRaster.LookupBounded` | HistogramMatching.py:485-501 | a lookup stays within any bounds that all table entries satisfy |
| `TileRaster.GateAsWritten` | HistogramMatching.py:483 | defines the test as written: valid red sample, a mask configured, and mask value 255 |
| `TileRaster.Gate` | HistogramMatching.py:483 | defines the corrected test: valid red sample, and mask value 255 when a mask is configured |
| `TileRaster.BandPixel` | HistogramMatching.py:483-501 | the band value written at a pixel; where the gate passes it is an entry of the band's table |
| `TileRaster.AlphaPixel` | HistogramMatching.py:483-503 | the alpha written at a pixel is 255 exactly where the gate passes, otherwise 0 |
| `TileRaster.UnmaskedGateAsWrittenNeverPasses` | HistogramMatching.py:483 | as written, with no cutout mask configured, no pixel passes the gate |
| `TileRaster.GateAgreesWhenMasked` | HistogramMatching.py:483 | with a mask the corrected gate equals the gate as written; without one it passes exactly the pixels with data |
| `TileRaster.GatesDifferWithoutMask` | HistogramMatching.py:483 | a pixel with data and no mask passes the corrected gate but not the one as written |
| `TileRaster.RasterizeTile` | HistogramMatching.py:471-503 | the four new rasters have the tile's dimensions, and every pixel holds its band lookup and alpha value under the chosen gate rule: the test of line 483 as written, or the corrected one; the tables need only be readable at pixels that pass |
| `TileRaster.UnmaskedTileAsWrittenIsTransparent` | HistogramMatching.py:478-503 | with the gate as written and no cutout mask, no table is read and every pixel of all four bands of the tile is 0 |
| `TileRaster.TransparentPixelsAreBlack` | HistogramMatching.py:471-503 | transparent pixels are black in all three bands; alpha is 255 exactly for pixels with data that, for the corrected gate, have no mask or mask value 255, and, as written, have a mask with value 255 |
| `TileRaster.OpaquePixelValues` | HistogramMatching.py:483-503 | an opaque pixel's red, green and blue values are entries of their band tables; in each band, a source value past the table's end gives the table's last entry |
| `EgalisationColorimetrique.HistoMatch` | EgalisationColorimetrique.py:83-132 | defines a band's `(min, max)` pair from its two cumulative histograms; `StretchIsLineThroughPercentiles`, `PercentileBounds` and `ZeroPairMeansFailure` state its properties |
| `EgalisationColorimetrique.ComputeHistoMatch` | EgalisationColorimetrique.py:83-132 | the method returns the stretch bounds that the band's two histograms define |
| `EgalisationColorimetrique.StretchBounds` | EgalisationColorimetrique.py:90-132 | from the two cumulative histograms, the four threshold loops and the slope yield that pair, `(0, 0)` when one is empty |
| `EgalisationColorimetrique.ThresholdsOrdered` | EgalisationColorimetrique.py:93-110 | the 10% threshold is at most the 90% one, and so are their bin counts |
| `EgalisationColorimetrique.PercentileBounds` | EgalisationColorimetrique.py:93-129 | the reference percentages satisfy `0 <= start <= end <= 100`; the match bins satisfy `0 <= start <= end <= bins` |
| `EgalisationColorimetrique.PercentMonotone` | EgalisationColorimetrique.py:101-110 | `seuil*100/len` is a percentage that keeps the order of the counts |
| `EgalisationColorimetrique.Tenth` | EgalisationColorimetrique.py:96 | definition of the 10% level `c[-1]/10`; `ThresholdsOrdered` proves it is at most the 90% level |
| `EgalisationColorimetrique.NineTenths` | EgalisationColorimetrique.py:105 | definition of the 90% level `c[-1] - c[-1]/10`; `ThresholdsOrdered` proves it is at least the 10% level, and so are the bin counts below it |
| `EgalisationColorimetrique.Percent` | EgalisationColorimetrique.py:101-110 | definition of `seuil*100/len`; `PercentMonotone` proves it lies in `[0, 100]` and keeps the order of the counts |
| `EgalisationColorimetrique.RefStart` | EgalisationColorimetrique.py:93-101 | definition of `ref_seuil_debut`, the percentage of leading reference bins below the 10% level; `PercentileBounds` proves `0 <= RefStart <= RefEnd <= 100` |
| `EgalisationColorimetrique.RefEnd` | EgalisationColorimetrique.py:103-110 | definition of `ref_seuil_fin`, the same at the 90% level; `PercentileBounds` bounds it |
| `EgalisationColorimetrique.MatchStart` | EgalisationColorimetrique.py:112-120 | definition of `match_seuil_debut`, the count of leading match bins below the 10% level; `PercentileBounds` proves `0 <= MatchStart <= MatchEnd <= bins` |
| `EgalisationColorimetrique.MatchEnd` | EgalisationColorimetrique.py:122-129 | definition of `match_seuil_fin`, the same at the 90% level; `PercentileBounds` bounds it |
| `EgalisationColorimetrique.EndsOfLine` | EgalisationColorimetrique.py:131-132 | the returned pair lies on the line through `(ref_start, match_start)` and `(ref_end, match_end)`, taken at 0% and 100% |
| `EgalisationColorimetrique.Slope` | EgalisationColorimetrique.py:131 | definition of `val_pourcent`; `EndsOfLine` proves it is the slope of the line through both percentile points |
| `EgalisationColorimetrique.Ends` | EgalisationColorimetrique.py:131-132 | definition of the returned pair; `EndsOfLine` proves both ends lie on that line, at 0% and 100%, and `EndsZero` says when the pair is `(0, 0)` |
| `EgalisationColorimetrique.StretchOf` | EgalisationColorimetrique.py:90-132 | definition of the pair from two cumulative histograms, `(0, 0)` when one is empty; `StretchBounds` computes it by the loops, and `StretchIsLineThroughPercentiles` and `IdenticalHistograms` state its properties through `HistoMatch` |
| `EgalisationColorimetrique.StretchIsLineThroughPercentiles` | EgalisationColorimetrique.py:83-132 | the same, for the pair computed from a band's histograms |
| `EgalisationColorimetrique.IdenticalHistograms` | EgalisationColorimetrique.py:83-132 | matching a histogram against itself stretches to `(0, number of bins)`: the identity on the bin domain |
| `EgalisationColorimetrique.TenBinExample` | EgalisationColorimetrique.py:83-132 | a concrete ten-bin histogram matched against itself gives `(0, 10)` |
| `EgalisationColorimetrique.TenBinCounts` | EgalisationColorimetrique.py:93-129 | its threshold counts are 3 and 5, that is 30% and 50% |
| `EgalisationColorimetrique.EndsZero` | EgalisationColorimetrique.py:131-132 | the pair is `(0, 0)` exactly when both matched percentile bins are 0 |
| `EgalisationColorimetrique.ZeroPairMeansFailure` | EgalisationColorimetrique.py:90-132 | `(0, 0)` comes from an empty histogram, or from a match histogram whose two percentile bins are both bin 0 |
| `EgalisationColorimetrique.EmptyReferenceIsDegenerate` | EgalisationColorimetrique.py:131 | an all-zero reference histogram makes both reference percentages 0, so line 131 divides by zero |
| `EgalisationColorimetrique.Equalize` | EgalisationColorimetrique.py:209-233 | the run fails exactly when the red pair is `(0, 0)`; otherwise the three bands' pairs are applied unchecked |
| `RmDuplicateLine.ParseArgs` | rmDuplicateLine.py:17-24 | the first argument after the program name is the input, the second the output, and later ones are ignored |
| `RmDuplicateLine.Dedup` | rmDuplicateLine.py:31-34 | the deduplicated lines are never more than the input lines |
| `RmDuplicateLine.RemoveDuplicates` | rmDuplicateLine.py:29-35 | the written lines are the deduplicated input, and the seen-set ends as the set of all input lines |
| `RmDuplicateLine.Elements` | rmDuplicateLine.py:29-35 | the set of input lines: a line is in it exactly when it occurs in the input; `RemoveDuplicates` proves the seen-set ends as this set |
| `RmDuplicateLine.DedupSameLines` | rmDuplicateLine.py:31-34 | the output has exactly the input's lines |
| `RmDuplicateLine.DedupNoDuplicates` | rmDuplicateLine.py:31-34 | no line is written twice |
| `RmDuplicateLine.DedupFirstOccurrenceOrder` | rmDuplicateLine.py:31-34 | lines are written in the order of their first occurrence in the input |
| `RmDuplicateLine.DedupOfDistinct` | rmDuplicateLine.py:31-34 | an input without duplicates is copied unchanged |
| `RmDuplicateLine.DedupIdempotent` | rmDuplicateLine.py:31-34 | running the script on its own output changes nothing, and the output equals the input exactly when the input has no duplicates |

## Left out

- Histogram computation, clipping and mask rasterization (`histogram(band, 0)`, `generateClippedInput`, `generateTravailMask`, `generateFinalMask`), VRT assembly and overviews are QGIS Processing services. The model takes the histograms, the extent and the pixel blocks they produce as inputs.
- The choice of extent and mask (`HistogramMatching.py:408-426`) is left to the caller. The extent is an input, and `TileRaster.TileInput.mask` is `None` when no cutout mask is configured.
- Reads through the `block()` calls of the data provider (`HistogramMatching.py:472-479`) are inputs (`TileRaster.Block`). No-data flags and values are given per pixel.
- Floating-point rounding is not modelled: float arithmetic is exact `real` arithmetic. Only the `int()` truncations are modelled.
- Writing GeoTIFF files is out of scope:
  - directory creation and tests (`os.path.exists`, `os.mkdir`);
  - the driver options;
  - the conversion of the bands to bytes (`GDT_Byte`). Writing a float array to a byte band saturates at both ends. A table entry of 256, which `TableCanReachMaxRef` shows can occur, is kept as 256 in the model where the written byte would be 255. An extrapolated entry can also be negative: an index below `min_match` whose count still reaches `min_ref`, with a small `pas_match`, extrapolates below 0. The model keeps that negative value where the written byte would be 0;
  - for the same reason, the `np.zeros` float arrays are modelled as integer arrays, since every value written into them is an integer.
- The spatial reference (`osr`, EPSG code, `HistogramMatching.py:514-516`) is left out; it involves calls into GDAL.
- Progress reporting and debug messages (`feedback.setProgress`, `pushInfo`, the `avance` computation of line 521) are left out: they do not affect the output.
- Cancellation is left out. The `isCanceled()` checks (`HistogramMatching.py:336-337`, 346-347, 364-365, 379-380, 418-419, 457-458 and 523-524, and `EgalisationColorimetrique.py:195-196`, 205-206, 218-219 and 227-228) end the run early with `SUCCESS: False`. A run cancelled inside the tile loop leaves only the tiles written so far, and no VRT. The model always produces the whole plan and every tile, and `EgalisationColorimetrique.Equalize` fails exactly when the red pair is `(0, 0)`, as if no cancel were requested.
- `gdal.GeneralCmdLineProcessor` and `sys.exit` (`rmDuplicateLine.py:13-15`) are left out. The argument vector is an input.
- File reading and writing in `rmDuplicateLine.py` are left out. The input lines are a sequence of strings, and the output is the sequence of lines written. Line 30 opens the output with `"w"` before line 31 opens the input. So a missing input name still creates or truncates the output file, and then raises. The same name given for both arguments empties the file before it is read, and nothing is written.
- Opening a missing output name (`open(None)`) raises in the script. This is not modelled.
- `TileGrid.GridCoversExtent`, `TileGrid.SnappedGridBounds` and `TileGrid.SnappedAxisCovers` cover whole-numbered extents only. A fractional maximum whose integer part is a multiple of 5000 keeps its tail test at 0 or 5000. That maximum is snapped down to its integer part, so a strip narrower than one unit is left outside the grid. The code as written loses the same strip on six-digit coordinates.
- `TileGrid.GridAsWritten` requires every corner's integer part to have at least three characters. If it has fewer, the as-written snapping raises a `ValueError` on `int('')`.
- `HistogramMatching.RefValueDefined` and `HistogramMatching.DesaturationDefined` turn the divisions of lines 242, 247, 257 and 263 into preconditions. The desaturation percentage 0 is accepted by the plugin's parameter, and the model excludes it. With a non-empty match histogram (always the case for red, by line 353), it makes `min_ref == max_ref`, so line 242 raises before line 247 is reached: a `ZeroDivisionError` when the match total is 0 (its left operand `i/match_cumulhist[-1]` is evaluated first), otherwise an `IndexError` on `ref_cumulhist[max_ref]`. With an empty match histogram, line 247 divides by zero.
- `EgalisationColorimetrique.StretchDefined` turns the unguarded division of line 131 into a precondition.
- Within `EgalisationColorimetrique.py`, only `computeHistoMatch` and the red-band check of its caller are modelled:
  - setting the renderer's contrast bounds is modelled as the `Outcome` value;
  - clipping and repainting are not modelled.
- `To8BitsFromStyle.py`, `imgkap.py` and `mapillary.py` are not part of this model. They are separate plugins and scripts outside the matching core.

## Findings

| source | as written | input that shows it | evidently intended | confidence | as-written member | corrected member |
|---|---|---|---|---|---|---|
| HistogramMatching.py:429-451 | the tail that decides the snapping is `int(str(int(v))[2:])`, which is the last four digits only for six-digit coordinates | extent `(12345, 67890, 34567, 89012)`: `str(89012)[2:]` is `"012"`, so `fe_ymax = 85000 < 89012` and the strip `85000 <= y < 89012` gets no tile (`fe_ymin` is 60000 instead of 65000 for the same reason) | the tail is the integer part modulo 10000, so the grid covers the extent (proved for whole-numbered extents) | high, not executed | `TileGrid.AsWrittenMissesExampleTop` | `TileGrid.GridCoversExtent` |
| HistogramMatching.py:483 | the gate is `not isNoData and (masked and int(alpha) == 255)`, so with no cutout mask (`masked = False`, line 411) no pixel passes and every tile is fully transparent | no cutout mask, any pixel with data, e.g. the 1x1 block with value 0 | with no cutout mask, gate on the data only (`not masked or int(alpha) == 255`) | high, not executed | `TileRaster.UnmaskedTileAsWrittenIsTransparent` | `TileRaster.GatesDifferWithoutMask` |

`TileGrid.GridAsWritten` models the first row's snapping as written. `TileGrid.SnappedGrid` is the corrected snapping, and the rest of the model uses it:
- `TileGrid.GridAgreesOnSixDigits` shows that the two agree on six-digit coordinates;
- `TileGrid.SnappedGridBounds` and `TileGrid.GridCoversExtent` prove that the corrected grid covers any whole-numbered extent.

`TileRaster.GateAsWritten` models the second row's gate as written, and `TileRaster.Gate` is the corrected gate. `TileRaster.RasterizeTile` takes the rule as a parameter, so it models a tile written either way. `TileRaster.UnmaskedTileAsWrittenIsTransparent` shows that, as written, an unmasked tile comes out all zeros. `TileRaster.GateAgreesWhenMasked` shows that the two gates coincide whenever a mask is configured.
