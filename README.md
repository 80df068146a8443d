# Body-shape preview and dream-site generator, modelled in Dafny

This project models two parts of the repository.

**The person-aware warp pipeline of `js/body-transform.js`.** A photo is a
row-major RGBA byte buffer of `w * h * 4` entries. A binary person mask and a
pose (named keypoints with confidence scores) come with it. The pipeline:

- looks up pose keypoints (`getKeypoint`);
- softens the mask with three separable box-blur passes (`featherMask`);
- paints the person out of the photo to get a background plate. It fills each
  row's person span with a horizontal gradient, blends that with a weighted
  vertical estimate, then smooths interior pixels (`createBackgroundPlate`);
- builds a ten-point anatomical scale curve from the pose (`buildScalePoints`);
- evaluates that curve with cosine easing (`smoothScale`);
- samples the photo bilinearly (`bilinearSample`);
- composites one of two warps over the plate: a per-row horizontal stretch of
  the person (`warpPersonHorizontal`), or a full-frame scanline remap
  (`warpFullWithMask`);
- offers five presets that pick a warp and its parameters (`transformTypes`).

**The data linking of the static-site generator `build.py`:**

- resolving each dream's related ids to dream records (`load_dreams`);
- grouping dreams by category (`build_index_page`);
- assembling the text of `sitemap.xml` (`build_sitemap`);
- the file count it reports (`main`).

How the source's numbers and objects are represented:

- JavaScript numbers are Dafny `real`s.
- `Math.round` is `Raster.Round`, that is `floor(x + 0.5)`.
- A write into a `Uint8ClampedArray` is `Raster.ToByte`: round, then clamp to 0..255.
- The cosine ease `(1 - cos(u·π)) / 2` is a parameter `ease`. The predicate
  `IsCosineEase` pins down what the proofs use: `ease(0) = 0`, `ease(1) = 1`,
  and `0 <= ease(u) <= 1`.
- Each imperative routine is a `method` over `array`s. It is proved equal to a
  specification function (`dst[..] == WarpHorizontal(...)`). The lemmas about
  that function state what the source promises pixel by pixel.
- A dream record is a `class`, because `load_dreams` updates the dicts in place
  and the related lists alias the same records.

Modules, one per file:

| file | module | contents |
|---|---|---|
| `raster.dfy` | `Raster` | bytes, rounding, row-major indexing, and the row-scan lemmas the imperative proofs share |
| `realarith.dfy` | `RealArith` | products of reals and convex-combination bounds |
| `pose.dfy` | `Pose` | keypoints and `getKeypoint` |
| `curve.dfy` | `ScaleCurve` | `smoothScale` and `buildScalePoints` |
| `sampling.dfy` | `Sampling` | `bilinearSample` |
| `mask.dfy` | `MaskUtil` | the row's person extent and `featherMask` |
| `plate.dfy` | `Plate` | `createBackgroundPlate` |
| `warp.dfy` | `Warp` | `warpPersonHorizontal` and `warpFullWithMask` |
| `presets.dfy` | `Presets` | `transformTypes` |
| `site.dfy` | `Site` | the `build.py` linking, grouping, sitemap and file count |

## Model

| member | source | states |
|---|---|---|
| Raster.Round | js/body-transform.js:94 | Math.round: the result is within half a unit of x, with halves rounded up |
| Raster.RoundOfInteger | js/body-transform.js:345-346 | rounding an integer gives that integer |
| Raster.RoundMonotone | js/body-transform.js:368-369 | rounding never reverses an order |
| Raster.ToByte | js/body-transform.js:176-179 | a Uint8ClampedArray write: the rounded value inside 0..255, 0 below that range, 255 above it |
| Pose.FindFrom | js/body-transform.js:76-83 | the search finds nothing exactly when no keypoint from `from` on has the name and a score above 0.2; otherwise it returns the position of the first such keypoint |
| Pose.GetKeypoint | js/body-transform.js:76-83 | the loop returns the first matching position, and null exactly when no keypoint matches |
| ScaleCurve.StepwiseIncreasing | js/body-transform.js:260-291 | rows that increase from each point to the next increase over every pair of points |
| ScaleCurve.ClampUnit | js/body-transform.js:248 | the clamped t lies in [0, 1] and equals t when t already does |
| ScaleCurve.BracketFrom | js/body-transform.js:250-252 | the scan stops at the first i whose next row is at least t, or at the last point |
| ScaleCurve.ScaleAt | js/body-transform.js:247-258 | at the last point the result is that point's scale; otherwise it lies between the two bracketing scales |
| ScaleCurve.BracketRowsDiffer | js/body-transform.js:254-255 | the two bracketing rows differ, so the local position never divides by zero |
| ScaleCurve.ScaleAtPositive | js/body-transform.js:247-258 | a curve with positive scales gives a positive scale everywhere |
| ScaleCurve.ScaleAtWithin | js/body-transform.js:247-258 | when every scale lies in [lo, hi], so does every evaluated scale |
| ScaleCurve.ScaleAtControlPoint | js/body-transform.js:247-258 | on an increasing curve with rows in [0, 1], evaluating at a point's row gives that point's scale |
| ScaleCurve.SmoothScale | js/body-transform.js:247-258 | the scan-and-blend method computes ScaleAt |
| ScaleCurve.BracketScan | js/body-transform.js:249-252 | the scan loop stops at the bracket index |
| ScaleCurve.OrOne | js/body-transform.js:282-288 | `zones.x \|\| 1.0`: a missing or zero ratio becomes 1.0, any other ratio is kept |
| ScaleCurve.ChestRatio | js/body-transform.js:284 | the chest ratio is used when present; otherwise the shoulder ratio, or 1.0 |
| ScaleCurve.PairRow | js/body-transform.js:272-277 | a paired landmark row is the mean of both sides over h when both are found, and the default otherwise |
| ScaleCurve.LandmarkRows | js/body-transform.js:274-275 | the waist row is the mean of the shoulder and hip rows; the chest row is a quarter of the way from shoulders to hips |
| ScaleCurve.BuildScalePoints | js/body-transform.js:279-290 | exactly 10 points; the first is (0, 1.0) and the last (1.0, 1.0); the second has scale 1.0 and a row of at least 0.01; the curve can be evaluated |
| ScaleCurve.ScalePointsScales | js/body-transform.js:282-288 | points 2..8 carry the zone ratios with their fallbacks; positive zone ratios give positive scales |
| ScaleCurve.ScalePointsRows | js/body-transform.js:271-281 | point 1 sits at max(0.01, head - 0.06); points 2..8 sit at the head, shoulder, chest, waist, hip, knee and ankle rows |
| ScaleCurve.DefaultScalePoints | js/body-transform.js:271-277 | with no usable keypoint the rows are 0, 0.06, 0.12, 0.25, 0.325, 0.40, 0.55, 0.78, 0.95, 1.0, which strictly increase |
| ScaleCurve.OrderedLandmarksIncrease | js/body-transform.js:271-289 | landmark rows in anatomical order strictly inside (0.01, 1) give a strictly increasing curve |
| Sampling.BilinearWeights | js/body-transform.js:298-300 | the four weights are non-negative and sum to 1 |
| Sampling.SampleCorners | js/body-transform.js:294-302 | for x, y >= 0 all four corner indices, and the two channels after each, lie inside the buffer |
| Sampling.Blend | js/body-transform.js:304-306 | a weighted channel of byte pixels lies in [0, 255] |
| Sampling.BilinearSample | js/body-transform.js:293-308 | every returned channel lies in [0, 255] |
| Sampling.SampleAtPixel | js/body-transform.js:293-308 | at an integer point inside the image the sample is that pixel's RGB |
| MaskUtil.ExtentUpTo | js/body-transform.js:316-322 | (-1, -1) exactly when no column is masked; otherwise the first and last masked columns, with none masked outside them |
| MaskUtil.ScanRowExtent | js/body-transform.js:134-141 | the extent loop computes RowExtent |
| MaskUtil.BoxRadius | js/body-transform.js:94 | the window radius is max(1, round(radius / 3)): at least 1, exactly 1 below 4.5 |
| MaskUtil.Binarize | js/body-transform.js:90-91 | same length as the mask; every value lies in [0, 1] |
| MaskUtil.WindowCount | js/body-transform.js:101-104 | the neighbour count is at most the window size and at least 1 |
| MaskUtil.WindowSumsInUnit | js/body-transform.js:100-117 | a window sum of values in [0, 1] lies between 0 and the count |
| MaskUtil.RowWindowUniform | js/body-transform.js:100-105 | on a uniform buffer the row sum is the value times the count |
| MaskUtil.ColWindowUniform | js/body-transform.js:112-117 | on a uniform buffer the column sum is the value times the count |
| MaskUtil.MeansInUnit | js/body-transform.js:105-117 | every row or column average of values in [0, 1] lies in [0, 1] |
| MaskUtil.MeansUniform | js/body-transform.js:105-117 | every average of a uniform buffer is that value |
| MaskUtil.Feather | js/body-transform.js:88-123 | the feathered mask has w·h values |
| MaskUtil.BlurPassInUnit | js/body-transform.js:96-120 | one horizontal-then-vertical pass keeps every value in [0, 1] |
| MaskUtil.BlurPassUniform | js/body-transform.js:96-120 | one pass maps a uniform buffer to itself |
| MaskUtil.BlurPassesInUnit | js/body-transform.js:95-121 | any number of passes keeps every value in [0, 1] |
| MaskUtil.BlurPassesUniform | js/body-transform.js:95-121 | any number of passes maps a uniform buffer to itself |
| MaskUtil.FeatherInUnit | js/body-transform.js:88-123 | every feathered value lies in [0, 1] |
| MaskUtil.FeatherUniformMask | js/body-transform.js:88-123 | an all-1 mask feathers to all 1.0; a mask with no 1 feathers to all 0.0 |
| MaskUtil.FeatherSmallRadius | js/body-transform.js:94 | every radius below 4.5 blurs like radius 1 |
| MaskUtil.RowWindow | js/body-transform.js:100-104 | the loop's sum and count are the row window's, and the count is at least 1 |
| MaskUtil.ColWindow | js/body-transform.js:112-116 | the loop's sum and count are the column window's, and the count is at least 1 |
| MaskUtil.BoxBlurRows | js/body-transform.js:97-107 | the horizontal pass writes the row blur of its input |
| MaskUtil.BoxBlurColumns | js/body-transform.js:108-119 | the vertical pass writes the column blur of its input |
| MaskUtil.FeatherMask | js/body-transform.js:88-123 | the method returns Feather of the mask |
| Plate.EdgeSumBounds | js/body-transform.js:148-155 | a sum over unmasked byte samples lies between 0 and 255 times their count |
| Plate.EdgeColourBounds | js/body-transform.js:148-169 | an edge colour, averaged or the fallback pixel, has channels in [0, 255] |
| Plate.RowFill | js/body-transform.js:134-169 | a row with a person gets a fill span with 0 <= fillLeft <= fillRight < w |
| Plate.Lerp | js/body-transform.js:176-178 | the gradient is the left colour at t = 0 and the right colour at t = 1 |
| Plate.LerpBetween | js/body-transform.js:173-178 | for t in [0, 1] the gradient lies between its two colours |
| Plate.Inpaint | js/body-transform.js:129-181 | pass 1 keeps the buffer length |
| Plate.Blend | js/body-transform.js:184-221 | pass 2 keeps the buffer length |
| Plate.Smooth | js/body-transform.js:224-241 | pass 3 keeps the buffer length |
| Plate.BackgroundPlate | js/body-transform.js:128-242 | the plate has the length of the source |
| Plate.SmoothByte | js/body-transform.js:229-237 | the 5-tap expression read from the array is the pass-3 byte of an interior person pixel |
| Plate.SmoothFilled | js/body-transform.js:224-241 | the pass-3 loop computes Smooth of the pass-2 buffer, which it reads but never writes, so the result does not depend on the order in which pixels are visited |
| Plate.BlendKeeps | js/body-transform.js:189-219 | a pixel without mask 1, without vertical samples, or an alpha byte, keeps its pass-1 value in pass 2 |
| Plate.VSumStep | js/body-transform.js:192-209 | one more row offset adds its weighted sample exactly when that row is in range and unmasked |
| Plate.SampleAbove | js/body-transform.js:192-200 | the loop's sums and weight total are those of the 20 rows above |
| Plate.SampleBelow | js/body-transform.js:202-210 | the loop's sums and weight total are those of the 20 rows below |
| Plate.ColumnSample | js/body-transform.js:190-210 | the vertical estimate's sums and total are the column's |
| Plate.BlendMixes | js/body-transform.js:211-219 | a masked pixel with vertical samples gets half its pass-1 colour plus half the vertical average |
| Plate.BlendVertical | js/body-transform.js:184-221 | the pass-2 loop computes Blend |
| Plate.InpaintKeeps | js/body-transform.js:142-173 | columns pass 1 does not repaint keep the source bytes |
| Plate.EdgeSumStep | js/body-transform.js:149-155 | one more column adds its channels and one to the count exactly when its mask is 0 |
| Plate.EdgeSample | js/body-transform.js:148-169 | the sampling loop computes EdgeColour: the average of unmasked columns, or the fallback pixel |
| Plate.GradientAt | js/body-transform.js:171-180 | inside a fill span the alpha byte is 255 and each channel is the rounded gradient |
| Plate.InpaintRows | js/body-transform.js:129-181 | the pass-1 loop computes Inpaint |
| Plate.CreateBackgroundPlate | js/body-transform.js:128-242 | the method returns BackgroundPlate of the source |
| Plate.PassesKeepBackground | js/body-transform.js:189-230 | passes 2 and 3 change only colour bytes of mask-1 pixels; pass 3 only interior ones |
| Plate.InpaintSkipsRow | js/body-transform.js:142-172 | a row with no person, or with fillRight - fillLeft <= 0, keeps the source bytes in pass 1 |
| Plate.InpaintSpan | js/body-transform.js:171-180 | across the fill span alpha is 255; each channel lies between the rounded edge colours, with the left colour at fillLeft and the right colour at fillRight |
| Plate.GradientBounds | js/body-transform.js:174-178 | a gradient byte lies between the rounded end colours and equals them at the ends |
| Plate.PlateKeepsOutsideSpan | js/body-transform.js:129-228 | every byte of a row without a person, or outside the widened span, equals the source byte, alpha included |
| Warp.Composite | js/body-transform.js:349-351 | alpha 0 keeps the plate byte; alpha 1 gives the rounded sample |
| Warp.CompositeBetween | js/body-transform.js:349-351 | for alpha in [0, 1] the byte is the rounded mix, between the sample and the plate byte |
| Warp.RowStretch | js/body-transform.js:316-334 | a stretched row has both extent ends masked, left + 2 <= right < w, and a positive new width |
| Warp.WarpHorizontal | js/body-transform.js:311-356 | the warped image has the plate's length |
| Warp.HorizontalKeeps | js/body-transform.js:312-336 | pixels the row's span does not write keep the plate bytes |
| Warp.HorizontalBlended | js/body-transform.js:336-352 | a span pixel whose source lies inside the image gets the composited sample, with alpha 255 |
| Warp.HorizontalSkips | js/body-transform.js:340 | a span pixel whose source lies outside [0, w-1) x [0, h-1) keeps the plate bytes |
| Warp.UnstretchedRow | js/body-transform.js:323 | a row with no person, or with right - left <= 1, equals the plate row |
| Warp.RowStretchOf | js/body-transform.js:325-334 | a stretched row is centred on the extent, with width (right - left)·scale and source row y + (below - above)/4 |
| Warp.RowScales | js/body-transform.js:327-333 | the row scale and its neighbours' scales are the curve at y/h, (y-1)/h and (y+1)/h, or the row's own at the edges |
| Warp.StretchRow | js/body-transform.js:315-353 | one row of the loop writes exactly that row of WarpHorizontal |
| Warp.WarpPersonHorizontal | js/body-transform.js:311-356 | the method returns WarpHorizontal |
| Warp.UnitScaleAt | js/body-transform.js:327 | a curve whose scales are all 1 evaluates to 1 everywhere |
| Warp.UnitStretch | js/body-transform.js:325-334 | with scale 1 the row keeps its extent and source row |
| Warp.BlendedInPlace | js/body-transform.js:342-351 | sampling at the pixel's own position composites the source pixel over the plate |
| Warp.UnitScaleInPlace | js/body-transform.js:311-356 | with unit scales each extent pixel is the source pixel composited over the plate; every other pixel is the plate's |
| Warp.BlendedBounds | js/body-transform.js:342-352 | a written pixel has alpha 255 and channels between the rounded sample and the plate byte |
| Warp.RowStrip | js/body-transform.js:364-373 | the strip is centred in the row: its left and right margins differ by at most one column; a strip with width <= 0 writes no column |
| Warp.WarpFull | js/body-transform.js:359-393 | the warped image has the plate's length |
| Warp.FullKeeps | js/body-transform.js:360-381 | pixels the strip does not write keep the plate bytes |
| Warp.FullBlended | js/body-transform.js:373-389 | a remapped pixel gets the composited sample, with alpha 255 |
| Warp.UnstripedRow | js/body-transform.js:371-373 | a row whose source row lies outside [0, h-1), or whose strip is empty, equals the plate row |
| Warp.UnitWidthInPlace | js/body-transform.js:366-389 | with x-scale 1 the strip spans the row with offset 0, and a pixel is written exactly when its alpha is at least 0.05 |
| Warp.StripRow | js/body-transform.js:363-390 | one row of the loop writes exactly that row of WarpFull |
| Warp.WarpFullWithMask | js/body-transform.js:359-393 | the method returns WarpFull |
| Presets.PresetsRunnable | js/body-transform.js:398-457 | five presets: three horizontal and two full-frame, all with curves the warps accept |
| Presets.PresetImage | js/body-transform.js:403-454 | a preset's image has the plate's length |
| Presets.Apply | js/body-transform.js:403-454 | the method runs the preset's warp and returns PresetImage |
| Presets.BuiltScalesWithin | js/body-transform.js:279-290 | zone ratios in [lo, hi] around 1 give curve scales in [lo, hi] |
| Presets.HorizontalPresetScales | js/body-transform.js:399-434 | for any pose and row, slim scales lie in [0.82, 1.0], plump in [1.0, 1.22], muscular in [0.88, 1.15] |
| Presets.RowMappingFixesEnds | js/body-transform.js:442-453 | a row mapping that starts at (0, 0) and ends at (1, 1) maps the top to 0 and the bottom to 1 |
| Presets.ControlRowsMapped | js/body-transform.js:442-453 | a mapping with every point on or above the diagonal maps each control row on or above it, and likewise below |
| Presets.PresetRowMappings | js/body-transform.js:442-453 | both row mappings are increasing from (0, 0) to (1, 1); tall lies on or above the diagonal, short on or below |
| Presets.TallPresetRows | js/body-transform.js:442 | the tall preset maps each control row to a source row at least as low |
| Presets.ShortPresetRows | js/body-transform.js:453 | the short preset maps each control row to a source row at most as low |
| Presets.NarrowStrip | js/body-transform.js:366-369 | x-scales in [0, 1] give a strip no wider than the row, at offset >= 0 |
| Presets.WideStrip | js/body-transform.js:366-369 | x-scales in [1, hi] give a strip at least as wide as the row, at offset <= 0 |
| Presets.TallStripInside | js/body-transform.js:441 | the tall preset's strips stay inside the row |
| Presets.ShortStripCovers | js/body-transform.js:452 | the short preset's strips cover the row |
| Site.Dream.constructor | build.py:25-26 | a dream record starts with its fields and no related data |
| Site.IndexByIdLastWins | build.py:29 | the keys of dreams_by_id are exactly the ids; each maps to a dream with that id; when ids repeat the later dream wins |
| Site.KnownIds | build.py:35 | the kept ids are exactly the related ids that are keys, no more of them than there were ids |
| Site.ResolveKnown | build.py:34-36 | the related data is, position by position, the dream of each kept id |
| Site.KnownIdsAppend | build.py:35 | filtering keeps the original order |
| Site.KnownIdsExtremes | build.py:35 | all ids known keeps them all; none known gives an empty list |
| Site.LoadDreams | build.py:29-38 | returns the dreams in input order and dreams_by_id; every dream's related data resolves its related ids, or is empty when it has none |
| Site.CategoryOrderKeys | build.py:76-79 | the category keys are distinct and are exactly the categories of the dreams, "기타" for a dream without one |
| Site.MembersExactly | build.py:77-79 | a dream is listed under a category exactly when it is a dream of that category |
| Site.MembersAppend | build.py:77-79 | each category list keeps the input order |
| Site.GroupSizesSum | build.py:76-79 | the category lists' lengths sum to the number of dreams |
| Site.GroupByCategory | build.py:76-79 | the loop builds a key for each category in first-seen order, each holding that category's dreams in input order |
| Site.SplitJoin | build.py:127 | splitting on newlines undoes "\n".join of lines without newlines |
| Site.JoinAppend | build.py:127 | joining two non-empty lists joins the two joined texts with a newline |
| Site.BuildSitemap | build.py:100-129 | the loop and the final concatenation produce the sitemap text |
| Site.DreamEntryLines | build.py:113-122 | six lines per dream |
| Site.SitemapJoinsLines | build.py:100-129 | the sitemap is the declaration, the urlset tag, the home entry, the dream entries, the closing tag and a final newline |
| Site.SitemapLinesRoundTrip | build.py:100-129 | when ids and dates hold no newline, the sitemap's lines are exactly those listed |
| Site.EntryOpensOnce | build.py:104-109 | each entry has one `<url>` line |
| Site.SitemapEntryCount | build.py:100-129 | the sitemap has exactly 1 + len(dreams) `<url>` lines |
| Site.SitemapEntryAt | build.py:103-122 | the home entry comes first, then each dream's entry in input order |
| Site.DreamEntryFields | build.py:114-118 | a dream entry's loc is SITE_URL/id/ and its lastmod is updated_date, or today |
| Site.DreamEntryLinesAt | build.py:113-122 | dream i's six lines sit at positions 6i..6i+5 |
| Site.OutputFiles | build.py:172-175 | one write per page: index.html first, then id/index.html for each dream in order, then sitemap.xml |
| Site.TotalFiles | build.py:169 | the reported count, len(dreams) + 2, is the number of page writes |
| Site.OutputFilesDistinct | build.py:169-175 | the page writes name distinct files exactly when the dreams' ids are distinct, so the reported count is the number of files written only then |

## Left out

- DOM lookups, status and button helpers, the BodyPix model load and `segmentPerson` call, the upload and click handlers, and canvas drawing (`js/body-transform.js` lines 4-74 and 459-561). The mask and pose are plain inputs to the model.
- `Math.cos`: the ease `(1 - cos(u·π)) / 2` is a parameter that satisfies `IsCosineEase`. Its exact values are not modelled.
- Floating point: doubles are exact reals, and `Float32Array` storage of the soft mask is not rounded. Sums are exact, so the order of summation does not matter in the model.
- NaN from two equal neighbouring curve rows: `Evaluable` requires the first two rows to differ, which is the only case that reaches a division by zero.
- ScaleCurve.BuildScalePoints: requires `h != 0`. The caller passes the image height, which is positive; a height of 0 would make every row NaN.
- ScaleCurve.OrderedLandmarksIncrease: the curve is strictly increasing only for landmark rows in anatomical order. An arbitrary pose can give rows that are equal or out of order, and the model does not claim otherwise.
- Warp.WarpPersonHorizontal: requires every curve scale to be positive. A zero scale would give `newWidth = 0` and divide by zero; every preset's scales are positive.
- Plate.CreateBackgroundPlate: `expandRadius` is a `nat`. The caller passes a constant of 12; a negative radius would read outside the row.
- Plate.CreateBackgroundPlate: when `fillLeft` is 0, the left fallback sample reads column 0, which lies inside the fill span. The model does this too; no contract claims that the fallback comes from the background.
- Presets: each preset's emoji and description are display text and are not modelled; its name and its warp are.
- Site.SitemapLinesRoundTrip: stated only when ids and dates hold no newline. Otherwise one field spans several lines of the text.
- Site.LoadDreams, MaskUtil.BoxBlurRows, MaskUtil.BoxBlurColumns and the per-row warp and plate methods state their new state with `old` and `modifies`. The lemmas about the specification functions they are proved against carry the properties.
- Site.CategoryOf: a dream whose `category` is JSON null is grouped under "기타" here. `dict.get` returns `None` for a key that is present with a null value, so the source groups that dream under the key `None`.
- Site.LastMod: a dream whose `updated_date` is JSON null gets `today` here. The source writes `<lastmod>None</lastmod>`.
- Site.RelatedIds: a dream whose `related_dreams` is JSON null gets no related dreams here. The source raises `TypeError` when it iterates over `None`.
- Site.TotalFiles: when two dreams share an id, the source writes the same `id/index.html` twice and still reports `len(dreams) + 2` files. The model counts page writes; Site.OutputFilesDistinct states when that equals the number of files.
- `build.py`: reading `dreams.json`, `clean_output`, Jinja2 rendering in `build_index_page` and `build_dream_pages`, file writes, `print`, and `datetime.now()` (`today` is a parameter). `main.js`, `animal-face-test.js` and `deploy.py` are UI, webcam and process orchestration, and are not part of this model.
