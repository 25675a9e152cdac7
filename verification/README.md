# Virtual lipstick try-on: a Dafny model of the lip pipeline

This project models the lip pipeline of a virtual lipstick try-on
application in Dafny and proves properties of that model. The pipeline has
these stages:

- find the faces in a photo and rank them;
- cut each face's lips out as a mask;
- paint the lips with a catalogue shade in one of three textures (matte,
  gloss or velvet);
- recommend house shades from a skin sample;
- merge the painted faces back into one picture.

Modules, in pipeline order:

| module | file | models |
|---|---|---|
| `Basics` | `basics.dfy` | Python's `int()` truncation, `np.clip`, the 8-bit cast, and convexity facts |
| `Bits` | `bits.dfy` | OpenCV's `bitwise_and`/`or`/`xor` on 8-bit values |
| `FaceDetection` | `face_detection.dfy` | the lip index tables, the detection scale factor, contour extraction, the closed-mouth test, the tilt angle and the decisions of `get_lip_mask` |
| `FaceRanking` | `face_ranking.dfy` | the bounding-box score and the stable descending sort of `detect_multiple_faces` |
| `LipstickRenderer` | `lipstick_renderer.dfy` | `apply_lipstick`, pixel by pixel: colour boost, opacity boost, texture dispatch, mask refinement, the three texture effects and the skin blend |
| `Recommendation` | `recommendation.dfy` | `LipstickRecommender`: the fifteen-shade house library, `get_recommendations` and `get_lipstick_details` |
| `LipstickLibrary` | `lipstick_library.dfy` | the brand catalogue (`LIPSTICK_COLORS`, `DEFAULT_TEXTURES`) and its four lookup functions |
| `TryOnUi` | `try_on_ui.dfy` | the pure helpers of the front end: default strength per texture, texture buttons, nearest catalogue shade, `is_in_range`, history, favourites, and the merge of per-face renders |

## How the model represents the source

Images are rows of `Bgr` pixels and masks are rows of integers. Python
dictionaries become association lists in insertion order, which keeps
`keys()` order. The `FaceDetection.Detector` value holds the two lip index
tables a `FaceDetector` object keeps as attributes. `get_lip_mask` reads its
tables from it, and `FaceDetection.Standard` says they are the tables the
constructor installs.

OpenCV and MediaPipe are not modelled; they enter as inputs instead:

- The face mesh's landmark lists are inputs.
- The rasteriser's coverage test is an input.
- Each pixel's results of erosion, Gaussian and box blur, the noise samples
  and the gloss and velvet geometry arrive in a `Neighbourhood` value.
- The 3×3 blur of the lips-only plane is the parameter `blur3`.
- The HSV conversions are the parameters `toHsv` and `toRgb`.
- `atan2` in degrees and the square root are the parameters `atan2Deg` and
  `sqrt`.

Floating-point constants are exact rationals. Each place where the source
truncates is written out: `int()` rounds toward zero, the `uint8` cast after
a clip floors, and `// 2` floors.

Where the documentation and the code disagree, the model follows the code.

- **Matte noise.** The noise term ignores opacity: it is gated by the mask
  alone (`MatteNoiseIgnoresOpacity`).
- **Velvet opacity.** Velvet boosts an opacity that has already been boosted
  once (`VelvetOpacityBoostedTwice`).
- **Velvet texture.** The velvet "texture" term cancels algebraically, so
  velvet scales the blend by 2.06 before clipping (`VelvetTextureCancels`).
- **Tilt angle.** The `return 90` branch of `_get_lip_angle` is dead
  (`DistinctExtremesSpanPositiveWidth`).
- **Warm/cool test.** The test in `get_recommendations` is computed and then
  ignored (`OnlyBrightnessMatters`), and shade 304 is never recommended
  (`WheatNeverRecommended`).
- **Double scaling.** Contour points are multiplied by the scale factor of
  the last detection a second time. On a large image the mask polygon
  therefore lands outside the face (`DoubleScalingLeavesImage`).
- **History timestamps.** A history entry includes a timestamp. The "already
  present" test of the history therefore almost never fires in practice. The
  model keeps the test as written over an arbitrary item type.

## Model

| member | source | states |
|---|---|---|
| `FaceDetection.ScaleFactor` | app/utils/face_detection.py:87-94 | the recorded factor is 1 when the longer side is at most 1280, and otherwise exceeds 1 and maps 1280 back to the longer side |
| `FaceDetection.ExtractContour` | app/utils/face_detection.py:164-186 | the contour holds, in table order, the twice-scaled pixel of every table index the landmark list has; indices it lacks are skipped, not fatal |
| `FaceDetection.KeptIndicesSpec` | app/utils/face_detection.py:164-186 | an index survives the `IndexError` skip exactly when it is below the landmark count, and a table wholly below it survives unchanged |
| `FaceDetection.LipTablesBelow416` | app/utils/face_detection.py:25-32 | both lip tables have 20 entries, all at most 415 |
| `FaceDetection.FullMeshYieldsTwentyPoints` | app/utils/face_detection.py:164-186 | a full mesh (416 landmarks or more) yields all 20 points of each contour, each the pixel of its own table entry |
| `FaceDetection.MouthClosedIgnoresImageSize` | app/utils/face_detection.py:248-273 | for any non-empty image the mouth is closed exactly when the gap between landmarks 13 and 14 is below 4% of the nose-bridge-to-chin span, in normalised units |
| `FaceDetection.LeftmostIndex` | app/utils/face_detection.py:288-289 | `argmin` of x: a point of minimal x, and the first one |
| `FaceDetection.RightmostIndex` | app/utils/face_detection.py:288-290 | `argmax` of x: a point of maximal x, and the first one |
| `FaceDetection.DistinctExtremesSpanPositiveWidth` | app/utils/face_detection.py:292-305 | once the extreme indices differ the horizontal span is positive, so the `delta_x == 0` guard never fires |
| `FaceDetection.LipAngle` | app/utils/face_detection.py:275-309 | 0 for fewer than two points or one extreme point; otherwise `atan2` of the rightmost-minus-leftmost vector, whose x part is positive |
| `FaceDetection.LevelLipsAreNotRotated` | app/utils/face_detection.py:210-213 | lips whose extreme points are level have angle 0 and are never rotation-corrected |
| `FaceDetection.GetLipMask` | app/utils/face_detection.py:149-213 | no landmarks gives no mask; otherwise no mask exactly when at most 3 entries of either lip table index into the landmark list; past that guard it raises `IndexError` exactly when the list stops at or before the nose bridge (landmark 168); a built mask draws the two contours the detector's tables extract, hollows the inner lips exactly when the mouth is open, and is rotated exactly when the tilt is strictly beyond 10 degrees, by the tilt angle about the outer contour's centroid |
| `FaceDetection.FullMeshBuildsMask` | app/utils/face_detection.py:188-190 | with the lip tables the constructor installs, a full mesh always passes the point-count guard and yields a mask |
| `FaceDetection.ShortMeshRaises` | app/utils/face_detection.py:188-196 | with the constructor's lip tables, a list of 100 to 168 landmarks passes the point-count guard, then raises `IndexError` in the closed-mouth test instead of returning `None` |
| `FaceDetection.ShortMeshContours` | app/utils/face_detection.py:164-190 | any list of at least 100 landmarks yields at least four points of each contour |
| `FaceDetection.CavityCutOnlyWhenOpen` | app/utils/face_detection.py:199-205 | the filled mask is binary; a pixel is 255 exactly when inside the outer polygon and, if the cavity is cut, outside the inner one |
| `FaceDetection.ClosedMouthIsSolid` | app/utils/face_detection.py:196-205 | a closed mouth is filled solid; an open mouth leaves every pixel inside the inner polygon at 0 |
| `FaceDetection.DoubleScalingLeavesImage` | app/utils/face_detection.py:170-172 | on any landscape image wider than 1280, a landmark's twice-scaled column falls at or past the right edge exactly when its once-scaled column reaches 1280 |
| `FaceDetection.ScaledPixelOutside` | app/utils/face_detection.py:170-172 | for any factor above 1 that maps 1280 to the width, the twice-scaled column leaves the image exactly when the once-scaled column reaches 1280 |
| `FaceRanking.BoundingBox` | app/utils/face_detection.py:114-127 | the box contains every landmark pixel, lies within the seed bounds, and each edge is attained by a landmark or still equals its seed |
| `FaceRanking.ScoreFavoursLargeCentredFaces` | app/utils/face_detection.py:127-136 | of two boxes, one at least as large and at least as close to the image centre scores at least as high, and strictly higher when strictly larger |
| `FaceRanking.InsertByScore` | app/utils/face_detection.py:141 | insertion adds exactly one entry and loses none |
| `FaceRanking.SortByScore` | app/utils/face_detection.py:141 | the sort is a permutation of its input |
| `FaceRanking.SortIsOrdered` | app/utils/face_detection.py:141 | sorting entries listed in detection order yields a stable descending order |
| `FaceRanking.RankFaces` | app/utils/face_detection.py:141-145 | `min(K, n)` entries, in stable descending order, each one a scored detection |
| `FaceRanking.RankingIsStableDescending` | app/utils/face_detection.py:141-145 | along the ranking, scores never increase, equal scores keep detection order, and no face repeats |
| `FaceRanking.DroppedFacesRankLower` | app/utils/face_detection.py:141-145 | every face left out of the first K ranks after every face kept |
| `FaceRanking.DetectMultipleFaces` | app/utils/face_detection.py:108-147 | returns `min(K, n)` landmark lists, and none when nothing is detected |
| `Bits.ByteIdentities` | app/utils/lipstick_renderer.py:160-169 | AND with 255 keeps a byte and AND with 0 clears it; OR with 255 saturates and OR with 0 keeps |
| `Bits.BinaryXor` | app/utils/lipstick_renderer.py:153-156 | XOR of two binary masks marks exactly the pixels where they differ |
| `LipstickRenderer.BoostHsv` | app/utils/lipstick_renderer.py:52-60 | hue kept; saturation ×1.3 in the red band and ×1.2 elsewhere, and value ×1.1, each truncated and capped at 255; neither decreases |
| `LipstickRenderer.EnhancedOpacity` | app/utils/lipstick_renderer.py:79 | the boosted opacity is at most 1, never below a valid input opacity, and is 1.2 times the input whenever that is below 1, else 1 |
| `LipstickRenderer.TextureOf` | app/utils/lipstick_renderer.py:86-115 | "gloss" and "velvet" select their effects, and every other name, "matte" included, selects matte |
| `LipstickRenderer.AddWeighted` | app/utils/lipstick_renderer.py:160-166 | the 0.7/0.3 mix is a byte between its two inputs, within 0.5 of `0.7·a + 0.3·b` |
| `LipstickRenderer.RefinedMaskValue` | app/utils/lipstick_renderer.py:150-169 | the refined mask is 0 outside the thresholded mask, 255 on the eroded core, and the weighted blur mix on the edge ring |
| `LipstickRenderer.SmoothingKernelSize` | app/utils/lipstick_renderer.py:145-146 | the box-blur kernel is odd, at least 3, and `max(3, min(h, w) // 50)` or one more |
| `LipstickRenderer.BaseBlendBetween` | app/utils/lipstick_renderer.py:218 | for mask and opacity in [0, 1], the base blend lies between the image value and the colour value |
| `LipstickRenderer.MatteChannel` | app/utils/lipstick_renderer.py:216-228 | the matte value is within [0, 255], and an uncovered pixel keeps its value |
| `LipstickRenderer.MatteNoiseIgnoresOpacity` | app/utils/lipstick_renderer.py:216-228 | at zero opacity a covered pixel (any mask weight above 0) moves by exactly `noise·mask·0.05`, so any non-zero noise changes it |
| `LipstickRenderer.HighlightStrength` | app/utils/lipstick_renderer.py:270-271 | for a brightness in [0, 255] the highlight strength lies in [0.20, 0.35] |
| `LipstickRenderer.HighlightWeakensWithBrightness` | app/utils/lipstick_renderer.py:270-271 | a brighter colour never gets a stronger highlight |
| `LipstickRenderer.HighlightGradient` | app/utils/lipstick_renderer.py:259-260 | the gradient lies in [0, 1]; it is 1 at the centre and 0 at or beyond the radius |
| `LipstickRenderer.GlossLitBrightens` | app/utils/lipstick_renderer.py:266-277 | the highlight only brightens the base blend, and never past white |
| `LipstickRenderer.GlossChannel` | app/utils/lipstick_renderer.py:281-289 | at mask 0.1 or below the image value is kept; above it, the blurred lips value is taken |
| `LipstickRenderer.VelvetOpacityBoostedTwice` | app/utils/lipstick_renderer.py:311 | velvet applies `min(1, 1.44·opacity)`: the 1.2 boost twice |
| `LipstickRenderer.VelvetTextureCancels` | app/utils/lipstick_renderer.py:337-341 | the velvet texture term cancels, leaving 2.06 times the blend |
| `LipstickRenderer.VelvetChannel` | app/utils/lipstick_renderer.py:343-358 | the velvet value is within [0, 255], and an uncovered pixel keeps its value |
| `LipstickRenderer.SkinBlend` | app/utils/lipstick_renderer.py:190-200 | the blended byte lies between the original and the painted value; weight 0 keeps the original and 255 takes the paint |
| `LipstickRenderer.Coverage` | app/utils/lipstick_renderer.py:72-76 | the normalised refined mask lies in [0, 1] |
| `LipstickRenderer.RenderChannel` | app/utils/lipstick_renderer.py:117-120 | each output channel is a byte, equal to the original wherever the skin-blend weight is 0, and equal to the texture's clipped value wherever it is 255 |
| `LipstickRenderer.Render` | app/utils/lipstick_renderer.py:82-120 | the rendered image has the input's shape and 8-bit pixels, keeps every pixel whose skin-blend weight is 0, and shows the texture's clipped value on every channel of every pixel whose weight is 255 |
| `LipstickRenderer.ApplyLipstick` | app/utils/lipstick_renderer.py:12-126 | a missing image stays missing; a missing or empty mask, or a missing colour, returns the image unchanged; otherwise the output has the image's shape and 8-bit pixels, keeps every pixel outside the blurred mask, and wherever the skin-blend weight is 255 shows the texture applied with the boosted colour and the boosted opacity |
| `LipstickRenderer.MatteCoreShowsBoostedColour` | app/utils/lipstick_renderer.py:12-126 | for a matte (or unknown) texture at opacity 5/6 or more, a pixel on the eroded mask core with full skin-blend weight becomes the boosted colour plus `0.05·noise`, clipped to a byte, whatever the original pixel |
| `LipstickRenderer.MatteCoreRender` | app/utils/lipstick_renderer.py:216-228 | with a matte paint at full opacity, a core pixel of full skin-blend weight shows the paint colour plus `0.05·noise` on every channel |
| `LipstickRenderer.RenderedChannelBetween` | app/utils/lipstick_renderer.py:117-120 | every output channel lies between the original and the texture's 8-bit value |
| `LipstickRenderer.UncoveredPixelKeepsImage` | app/utils/lipstick_renderer.py:82-117 | outside the thresholded mask every texture leaves the channel at its original value before the skin blend |
| `Recommendation.GetRecommendations` | app/utils/recommendation.py:32-96 | no sample gives the defaults; every answer has three ids per tone; for a medium-brightness sample the cool and neutral lists equal the defaults and the warm list does not |
| `Recommendation.BrightnessBands` | app/utils/recommendation.py:69-82 | the full answer in each band: V below 100, V from 100 to below 170, and V of 170 or more each get their own three lists |
| `Recommendation.SameAnswerIffSameBand` | app/utils/recommendation.py:69-94 | two samples get the same answer exactly when their V values lie on the same side of both 100 and 170 |
| `Recommendation.RecommendationsWellFormed` | app/utils/recommendation.py:64-94 | every list holds three distinct library shades of its own tone |
| `Recommendation.ShadesOfToneIsCandidates` | app/utils/recommendation.py:65-67 | the candidate lists are exactly the library's shades of each tone |
| `Recommendation.OnlyBrightnessMatters` | app/utils/recommendation.py:50-94 | two samples of equal V get the same recommendations, whatever their hue and saturation; so the computed warm/cool verdict changes nothing |
| `Recommendation.WheatNeverRecommended` | app/utils/recommendation.py:69-82 | shade 304 is in no neutral list |
| `Recommendation.LeadingWarmShadeFollowsBrightness` | app/utils/recommendation.py:69-82 | the first warm pick never decreases as V grows |
| `Recommendation.GetLipstickDetails` | app/utils/recommendation.py:98-116 | `None` exactly for an id not in the library; otherwise the id, its three colour fields, texture and tone |
| `Recommendation.LibraryWellFormed` | app/utils/recommendation.py:9-30 | every library colour is an 8-bit triple and every texture is a renderer texture |
| `Recommendation.RecommendedShadesHaveDetails` | app/utils/recommendation.py:98-116 | every recommended id has details whose tone is the tone of its list |
| `LipstickLibrary.Lookup` | app/utils/lipstick_library.py:145-146 | a lookup misses exactly when the key is absent, and a hit is an entry of the table |
| `LipstickLibrary.LookupFindsEntry` | app/utils/lipstick_library.py:151-152 | in a table without repeated keys, a key finds the value stored under it |
| `LipstickLibrary.FindStored` | app/utils/lipstick_library.py:149-159 | in a catalogue without repeated brands or names, what the two-level lookup finds is the value stored under that brand and name |
| `LipstickLibrary.BrandsAgree` | app/utils/lipstick_library.py:2-137 | the colour and texture tables list the same eight brands, in the same order, none twice |
| `LipstickLibrary.BrandWellFormedAt` | app/utils/lipstick_library.py:2-137 | every brand has shades; its two tables list the same shade names in the same order, none twice; its colours are 8-bit and its textures known |
| `LipstickLibrary.CatalogueHasNoRepeats` | app/utils/lipstick_library.py:2-68 | neither brands nor any brand's shade names repeat |
| `LipstickLibrary.AllBrands` | app/utils/lipstick_library.py:139-141 | the brands are listed in catalogue order, position by position, and a name is listed exactly when the catalogue has it |
| `LipstickLibrary.ColorsForBrand` | app/utils/lipstick_library.py:143-147 | an unknown brand gives the empty list; a known one gives a non-empty list of exactly its shade names, position by position in catalogue order (so none twice) |
| `LipstickLibrary.ColorRgb` | app/utils/lipstick_library.py:149-153 | a colour is returned exactly for a listed shade of the brand; it is the triple stored under that brand and shade, and an 8-bit RGB triple |
| `LipstickLibrary.Texture` | app/utils/lipstick_library.py:155-159 | a listed shade gets the texture stored under its brand and name, an unlisted one gets "matte"; the texture is always one of matte, gloss or velvet |
| `LipstickLibrary.TextureListedIffColourListed` | app/utils/lipstick_library.py:155-159 | a shade has a texture entry exactly when it has a colour, so the "matte" default applies only to unlisted shades |
| `TryOnUi.DefaultStrength` | main.py:32-40 | the strength lies in [0.3, 0.7], and is 0.4 exactly for a texture other than the three known ones |
| `TryOnUi.SelectTexture` | main.py:450-459 | an empty or unchanged choice changes nothing; a new choice becomes the texture; an unknown texture keeps the strength; brand and shade are untouched |
| `TryOnUi.ButtonsAgreeWithDefaults` | main.py:450-459 | a new known texture's button sets the same strength as `get_default_strength_by_texture` |
| `TryOnUi.ClosestShade` | main.py:585-595 | no answer exactly for an empty catalogue; otherwise a shade no farther from the target, under the given distance, than any shade, and strictly nearer than every shade visited before it |
| `TryOnUi.ClosestCatalogueShade` | main.py:578-595 | the chosen brand and shade name a listed colour at least as close to the recommended colour as every listed colour; it is the catalogue entry at the returned position, and every entry before that position in brand-then-shade order is strictly farther, so a tie goes to the first |
| `TryOnUi.NearestPositionIsNearestName` | main.py:587-595 | the nearest position, looked up by its names, gives its own colour, and no name finds a closer one |
| `TryOnUi.IsInRange` | main.py:1424-1428 | true exactly when the colour has a component for every range, each within its inclusive bounds |
| `TryOnUi.UpdateHistory` | main.py:1299-1303 | an item already present changes nothing; a new item is appended and the oldest dropped beyond ten; the history stays within ten |
| `TryOnUi.HistoryStaysDistinct` | main.py:1299-1303 | a history without repeats keeps none |
| `TryOnUi.AddFavourite` | main.py:511-513 | the current shade ends up in the favourites, appended only when absent, so there are never duplicates |
| `TryOnUi.RemoveFavourite` | main.py:1066-1067 | the favourite at the position is dropped and the rest keep their order |
| `TryOnUi.MergeImages` | main.py:1270-1278 | where the mask is 0 the result keeps the image; where it is 255 it takes the face render |
| `TryOnUi.MergedChannelsBetween` | main.py:1276-1278 | every merged channel lies between the two inputs' channels |
| `TryOnUi.MergeStep` | main.py:1267-1278 | a `None` mask skips the step; otherwise the mask-0 pixels keep the image and the mask-255 pixels take the render |
| `TryOnUi.Processed` | main.py:1213-1245 | one render per face with a mask: as many renders as painted faces, empty exactly when every face was skipped, and each face's render in order when none was |
| `TryOnUi.ProcessedInFaceOrder` | main.py:1213-1245 | the renders keep face order: a painted face's render sits at the position counting the painted faces before it |
| `TryOnUi.MergeProcessedFacesAsWritten` | main.py:1257-1278 | the result is missing exactly when every face was skipped |
| `TryOnUi.MergeProcessedFaces` | main.py:1257-1278 | pairing every render with its own face's mask: missing exactly when every face was skipped, otherwise an image of the original's shape |
| `TryOnUi.MergeFacesKeepsUnmasked` | main.py:253-279 | a pixel no face's mask touches keeps its value through the per-face merge |
| `TryOnUi.MergeFacesShowsOwnLips` | main.py:253-279 | a pixel only face f's mask covers ends up with face f's render |
| `TryOnUi.EachFaceKeepsItsOwnLips` | main.py:1257-1278 | with the pairing corrected, every face's lips show that face's own render |
| `TryOnUi.AsWrittenAgreesWhenNoneSkipped` | main.py:1257-1278 | when no face was skipped, the source's merge equals the corrected one |
| `TryOnUi.AsWrittenLosesAFace` | main.py:1222-1270 | with the first face skipped, the source's merge shows none of the second face's render on the second face's lips |

## Left out

- Face detection itself is left out: MediaPipe's mesh, CLAHE and the resize. The landmark lists are inputs.
- OpenCV's raster operators are left out: `fillPoly`, morphology, Gaussian and box blurs, `warpAffine`, thresholding after rotation, and the HSV conversions. Their per-pixel results or functions are inputs (`inside`, `Neighbourhood`, `blur3`, `toHsv`, `toRgb`). The mask `get_lip_mask` finally returns is therefore described by its plan (`MaskPlan`) and `FilledValue`, not as pixels.
- Randomness (`np.random.normal` in matte and velvet) is left out. The samples are inputs.
- `sqrt`, `atan2` and `np.degrees` are parameters, and floating-point rounding is not modelled; constants are exact rationals.
- `TryOnUi.ClosestShade`: takes the distance to the target as a parameter. `TryOnUi.ClosestCatalogueShade` passes the squared RGB distance instead of its `** 0.5`. The square root is monotone, so the chosen shade is the same.
- `LipstickRenderer.ApplyLipstick`: requires the mask to have the image's shape, the colour to be an 8-bit RGB triple, and the colour's HSV conversion to yield 8-bit values. NumPy's broadcasting errors on mismatched shapes are not modelled.
- `LipstickRenderer.ApplyLipstick`: the `except Exception` fallback is modelled only for a missing colour. Other exceptions from OpenCV are not modelled.
- `FaceDetection.GetLipMask`: the `try/except` around rotation is not modelled, because rotation is an OpenCV input. The only exception modelled is the `IndexError` of the closed-mouth test.
- `FaceDetection.ScaleFactor`: the factor is passed to `get_lip_mask` as a parameter. Its storage on the detector, where a later detection overwrites it, is not modelled.
- `FaceRanking.DetectMultipleFaces`: states only the result's length. Order and selection are stated on `FaceRanking.RankFaces`, whose entries carry the faces.
- `detect_face`, `reinitialize` and `get_skin_tone` are not modelled: they are detector set-up and a sampling routine over raw pixels.
- The Streamlit UI, HTTP API, webcam capture, Lottie and `random.choice` are not modelled: they are I/O and layout.
- Showing only the last five history entries is not modelled: it is display only.
- `TryOnUi.UpdateHistory`: generic over the item type. The timestamp that makes each real item unique is not modelled.

## Findings

| source | as written | input that shows it | evidently intended | confidence | as-written member | corrected member |
|---|---|---|---|---|---|---|
| main.py:1267-1278 | the i-th entry of `processed_faces` is merged through the mask of the i-th detected face, but `processed_faces` omits every face whose mask is `None` (main.py:1222-1225), so after a skipped face each render is paired with the previous face's mask | three faces, the first without a lip mask: the second face's render is pasted through the first face's missing mask (dropped), and the third face's render through the second face's mask, so the second face's lips show the third face's render | each render merged through its own face's mask | low, not executed; a full mesh always yields a mask, so an earlier face must lack one | `TryOnUi.MergeProcessedFacesAsWritten` (counterexample `TryOnUi.AsWrittenLosesAFace`) | `TryOnUi.MergeProcessedFaces` (`TryOnUi.EachFaceKeepsItsOwnLips`) |
