# Moss-stress colour detector: a Dafny model of its frame-processing core

The detector reads camera frames and converts them to OpenCV's 8-bit HSV space. It classifies every pixel against four overlapping plant-health colour bands. Each band's pixels are counted and sampled. Bounding boxes are drawn around large enough regions. Once per second a textual report goes to the console. Keys zoom, pan, reset or quit the view. All of this lives in one function, `detect_colors_with_live_hsv`. This project lifts out the integer and exact-real logic inside that function and models each piece as pure Dafny functions over immutable datatypes:

- `Controls` (controls.dfy): the key-event state machine over `ViewState(zoom, panX, panY)`. The key is `waitKey(1) & 0xFF`. A transition either continues with a new view or exits on `q`.
- `Zoom` (zoom.dfy): the crop rectangle of the digital zoom and the crop of a frame grid.
- `Pixels` (pixels.dfy): HSV pixels, bands with inclusive bounds, the four reference bands, and row-major flattening of a frame.
- `Classify` (classify.dfy): the `inRange` mask, `countNonZero`, numpy boolean selection of the matched pixels, and the percentage of the frame.
- `Sampling` (sampling.dfy): the strided sample `pixels[::n // min(50, n)]` and its per-channel min/max range.
- `BandReports` (report.dfy): one band's report block, built from the pieces above.
- `Telemetry` (telemetry.dfy): the one-second report throttle.
- `Regions` (regions.dfy): the strict `area > 500` contour filter.
- `Monitor` (monitor.dfy): one pass of the loop. It classifies, maybe reports, and then applies the polled key.
- `Basics` (basics.dfy): `Option`, plus integer and real min/max.

Zoom is an exact `real`, so `1.0 + 0.2 * k` is exact. The clock reading, the polled key and the analysed HSV pixels of a frame are parameters.

Where the code behaves differently from what its own names and messages suggest, the model follows the code:
- **Sample size.** Line 102 names the count `sample_size = min(50, n)`, but line 103 keeps every `n // sample_size`-th pixel, so a band keeps at least `min(50, n)` samples and up to 99 (`Sampling.SampleCount`, `Sampling.SampleOfNinetyNine`).
- **Arrow keys.** The help line printed at start-up (line 44) says the arrows pan "when zoomed in". The key branches (lines 160-167) do not check the zoom, so at zoom 1.0 the arrows move a pan that has no visible effect until the next zoom-in (`Controls.PanMovesWhileUnzoomed`).
- **First report.** `last_print_time` starts at start-up (line 50), so the first report waits for a full second to pass. Frames within the first second report nothing (`Telemetry.NoReportIffNoneDue`, `Monitor.Start`).
- **Empty crop.** When a frame side is shorter than the zoom factor, `int(w / zoom_factor)` at lines 72-73 is 0. The crop at line 80 is then empty and goes to `cv2.resize` at line 81, and nothing around that call handles a failure (`Zoom.CropNonEmpty` states when the crop is non-empty). Frames of at least 5 by 5 pixels are always safe.

## Model

| member | source | states |
|---|---|---|
| Controls.KeyCode | pythonSourceCode_BioGasLeak_25.py:148 | the masked key is in 0..255 and differs from the raw code by a multiple of 256 (it is the raw code's low byte); a code already in range is kept, and "no key" (-1) becomes 255 |
| Controls.OnKey | pythonSourceCode_BioGasLeak_25.py:148-167 | a key ends the loop iff its code is `q` (113), and from a state inside the clamps (zoom in [1.0, 5.0], pans in [-100, 100]) every key keeps the state inside them |
| Controls.UnrecognisedKeyIsNoOp | pythonSourceCode_BioGasLeak_25.py:148-167 | every code outside {43, 61, 45, 95, 114, 113, 81, 82, 83, 84} leaves the view exactly unchanged |
| Controls.NoKeyIsNoOp | pythonSourceCode_BioGasLeak_25.py:148 | polling with no key pressed (waitKey's -1) leaves the view unchanged |
| Controls.ResetRestoresInitial | pythonSourceCode_BioGasLeak_25.py:157-159 | `r` yields exactly zoom 1.0 and pan (0, 0) from any state |
| Controls.ZoomInKeepsPan | pythonSourceCode_BioGasLeak_25.py:151-152 | `+`/`=` raises the zoom by 0.2, capped at 5.0, and leaves both pans unchanged |
| Controls.ArrowKeysymsMask | pythonSourceCode_BioGasLeak_25.py:148 | the arrow keysyms 65361..65364 mask down to the codes 81..84 that the pan branches test |
| Controls.ZoomOutToOneResetsPan | pythonSourceCode_BioGasLeak_25.py:153-156 | `-`/`_` continues the loop; when one step down reaches or passes 1.0 the view becomes exactly (1.0, 0, 0), and otherwise the zoom drops by 0.2 and the pan is kept |
| Controls.ArrowChangesOneAxis | pythonSourceCode_BioGasLeak_25.py:160-167 | an arrow key leaves the zoom and the other axis alone; its own axis moves by 20 when that stays within ±100, and lands exactly on the clamp (-100 or 100) when a full step would pass it |
| Controls.PanMovesWhileUnzoomed | pythonSourceCode_BioGasLeak_25.py:160-167 | at zoom 1.0 the right arrow still moves the pan to 20 |
| Controls.ZoomStaysOnGrid | pythonSourceCode_BioGasLeak_25.py:151-159 | a zoom of the form 1.0 + 0.2·k with k in 0..20 stays of that form under every key |
| Controls.RunStaysValid | pythonSourceCode_BioGasLeak_25.py:148-167 | any finite sequence of keys keeps the view inside its clamps |
| Controls.Run | pythonSourceCode_BioGasLeak_25.py:148-167 | over successive frames, if the loop is still running after the keys then none of them was `q` |
| Controls.RunExitsIffQuit | pythonSourceCode_BioGasLeak_25.py:148-150 | a sequence of keys ends the loop iff one of them is `q` |
| Zoom.CropSpan | pythonSourceCode_BioGasLeak_25.py:72-73 | the crop length is floor(size / zoom): between 0 and the size, with length·zoom <= size < (length+1)·zoom |
| Zoom.CropOrigin | pythonSourceCode_BioGasLeak_25.py:74-77 | the origin keeps the crop inside the frame; it is the pan-shifted centred origin when that fits, and otherwise it is clamped to 0 or to size − length |
| Zoom.CropRect | pythonSourceCode_BioGasLeak_25.py:70-79 | there is no crop iff the zoom is at most 1.0; otherwise each side is floor(frame side / zoom) and the origin is `CropOrigin` of the frame centre shifted by `pan_x` horizontally and `pan_y` vertically, so the rectangle lies inside the frame |
| Zoom.CropNonEmpty | pythonSourceCode_BioGasLeak_25.py:72-81 | a crop side is non-empty iff the frame side is at least the zoom factor, so frames of at least 5 by 5 always give a non-empty crop |
| Zoom.ZeroPanCentres | pythonSourceCode_BioGasLeak_25.py:74-77 | with no pan the crop starts at w//2 − crop_w//2 and h//2 − crop_h//2 |
| Zoom.CropFrame | pythonSourceCode_BioGasLeak_25.py:70-80 | at zoom <= 1.0 the frame is unchanged; above 1.0 the result has crop_h rows of crop_w pixels, and pixel (i, j) is frame pixel (y1 + i, x1 + j) |
| Pixels.ReferenceBandsWellFormed | pythonSourceCode_BioGasLeak_25.py:25-30 | the four configured bands have ordered bounds inside the 8-bit HSV ranges |
| Pixels.ReferenceBandsOverlap | pythonSourceCode_BioGasLeak_25.py:25-30 | pixel (40, 50, 100) lies in three of the four bands at once |
| Pixels.InBand | pythonSourceCode_BioGasLeak_25.py:91 | the per-pixel test of `cv2.inRange`: each channel between the band's bounds with both ends included (the boundary cases are stated by `Pixels.InBandInclusive`) |
| Pixels.InBandInclusive | pythonSourceCode_BioGasLeak_25.py:91 | both bounds of an ordered band are in the band, and one step past either bound on any channel is not |
| Pixels.Flatten | pythonSourceCode_BioGasLeak_25.py:99 | the row-major pixel sequence numpy's boolean indexing walks; its size and index layout are stated by `Pixels.FlattenSize` and `Pixels.FlattenIndex` |
| Pixels.FlattenSize | pythonSourceCode_BioGasLeak_25.py:84 | a grid of h rows of w pixels flattens to h·w pixels (`total_pixels`) |
| Pixels.FlattenIndex | pythonSourceCode_BioGasLeak_25.py:99 | grid pixel (row, col) is flattened pixel row·w + col, the row-major order of boolean indexing |
| Classify.Mask | pythonSourceCode_BioGasLeak_25.py:91 | the mask has one flag per pixel, and a flag is set iff the pixel is within the band's bounds on all three channels, inclusively |
| Classify.CountNonZero | pythonSourceCode_BioGasLeak_25.py:93 | the count never exceeds the mask length, and (in `Classify.CountIsCardinality`) equals the number of set positions |
| Classify.CountIsCardinality | pythonSourceCode_BioGasLeak_25.py:93 | the non-zero count equals the number of distinct set positions |
| Classify.Selected | pythonSourceCode_BioGasLeak_25.py:98-99 | boolean selection keeps exactly as many elements as there are set flags (member-wise content in `SelectedMembers`, order in `SelectedIndex`) |
| Classify.SelectedMembers | pythonSourceCode_BioGasLeak_25.py:98-99 | a value is selected iff it stands at a set position |
| Classify.SelectedIndex | pythonSourceCode_BioGasLeak_25.py:98-99 | the selection keeps frame order: the element at set position i is the selection's element number CountNonZero(m[..i]) |
| Classify.BandCountMeaning | pythonSourceCode_BioGasLeak_25.py:88-100 | a band's count is the number of frame positions whose pixel is in the band, lies between 0 and the frame size, and equals the number of extracted matched pixels (so the second `len > 0` test agrees with `count > 0`) |
| Classify.BandCount | pythonSourceCode_BioGasLeak_25.py:93 | a band's pixel count is at most the frame size (its exact meaning is `Classify.BandCountMeaning`) |
| Classify.Matched | pythonSourceCode_BioGasLeak_25.py:98-99 | the extracted pixels number exactly the band's count (content and first element in `Classify.MatchedMeaning` and `Classify.MatchedFirst`) |
| Classify.MatchedMeaning | pythonSourceCode_BioGasLeak_25.py:98-99 | a value is among the matched pixels iff it occurs in the frame and lies in the band |
| Classify.MatchedFirst | pythonSourceCode_BioGasLeak_25.py:99 | the first matched pixel is the first pixel of the frame that lies in the band |
| Classify.CountZeroIffNoMatch | pythonSourceCode_BioGasLeak_25.py:93-97 | a band's count is 0 iff no pixel of the frame lies in it |
| Classify.Percentage | pythonSourceCode_BioGasLeak_25.py:121 | the percentage p satisfies p · total = count · 100, lies in [0, 100], and is 0 iff nothing matched and 100 iff every pixel matched |
| Sampling.Every | pythonSourceCode_BioGasLeak_25.py:103 | `xs[::k]` has exactly as many elements as there are multiples of k below len(xs) |
| Sampling.EveryIndex | pythonSourceCode_BioGasLeak_25.py:103 | sample j of `xs[::k]` is element j·k |
| Sampling.Stride | pythonSourceCode_BioGasLeak_25.py:102-103 | the stride is at least 1; it is 1 for up to 50 matches and floor(n/50) above |
| Sampling.Samples | pythonSourceCode_BioGasLeak_25.py:102-103 | the sample is empty iff there are no matches (size bounds in `Sampling.SampleCount`, origin in `Sampling.SamplesFromMatched`) |
| Sampling.SampleCount | pythonSourceCode_BioGasLeak_25.py:100-103 | for n > 0 matches the sample holds between min(50, n) and 99 pixels, and all of them when n <= 50 |
| Sampling.SampleOfNinetyNine | pythonSourceCode_BioGasLeak_25.py:102-103 | 99 matches give stride 1 and 99 samples, more than the nominal 50 |
| Sampling.SamplesFromMatched | pythonSourceCode_BioGasLeak_25.py:103 | every sample is a matched pixel, and the first sample is the first match |
| Sampling.SeqMin | pythonSourceCode_BioGasLeak_25.py:130 | the minimum is at most every element and is one of them |
| Sampling.SeqMax | pythonSourceCode_BioGasLeak_25.py:131 | the maximum is at least every element and is one of them |
| Sampling.Summarise | pythonSourceCode_BioGasLeak_25.py:126-137 | an empty sample gives "no data" and nothing else does; a range bounds every sample on every channel and each of its six ends is attained by some sample |
| Sampling.SummaryWithinBand | pythonSourceCode_BioGasLeak_25.py:126-135 | if every sample lies in a band, the range's min is at most its max and both lie within the band's [lower, upper] |
| BandReports.BandSamplesMeaning | pythonSourceCode_BioGasLeak_25.py:96-104 | a band's kept samples all lie in the band; they are empty iff the count is 0; otherwise at least min(50, count) are kept, starting with the first match |
| BandReports.BandSamples | pythonSourceCode_BioGasLeak_25.py:96-104 | the kept sample is empty iff the band counts no pixel |
| BandReports.BandSummaryMeaning | pythonSourceCode_BioGasLeak_25.py:96-104 | a band's summary is "no data" iff its count is 0, and otherwise a range ordered and inside the band whose ends are each a channel value of an in-band frame pixel |
| BandReports.RangeEndsSeen | pythonSourceCode_BioGasLeak_25.py:96-104 | every end of a band's reported range is the matching channel value of some in-band pixel of the frame |
| BandReports.DescribeBand | pythonSourceCode_BioGasLeak_25.py:119-137 | a band's block carries its name, its exact count of in-band frame pixels, the percentage of that count in the frame, and the per-channel min/max summary of the band's strided sample ("no data" iff the count is 0); a range is ordered, inside the band, and each of its six ends is a channel value of some in-band frame pixel |
| BandReports.NoMatchMeansNoData | pythonSourceCode_BioGasLeak_25.py:126-137 | a frame with no pixel in a band reports count 0 and "no data", not a zero-valued range |
| BandReports.DescribeFrame | pythonSourceCode_BioGasLeak_25.py:119-137 | there is one block per configured band, in configuration order, and block i is band i's own block as `DescribeBand` describes it |
| BandReports.BandsIndependent | pythonSourceCode_BioGasLeak_25.py:88-94 | a band's block is the same whichever other bands are configured with it |
| BandReports.OverlappingBandsCountTheSamePixel | pythonSourceCode_BioGasLeak_25.py:25-30 | the pixel (40, 50, 100) is counted once by each of the first three reference bands and not by the fourth |
| Telemetry.Throttle | pythonSourceCode_BioGasLeak_25.py:114-115 | a report is due only when at least 1.0 has passed since the last one; then the last-report time becomes now, and otherwise it stays as it was |
| Telemetry.ReportTimes | pythonSourceCode_BioGasLeak_25.py:114-140 | over successive frames there are never more reports than frames (spacing in `Telemetry.ReportsSpaced`) |
| Telemetry.ReportsSpaced | pythonSourceCode_BioGasLeak_25.py:114-140 | report j comes at least (j+1) intervals after the start, and reports i < j are at least j − i intervals apart, for any clock |
| Telemetry.ReportsAreFrameTimes | pythonSourceCode_BioGasLeak_25.py:114-140 | every report time is the timestamp of a frame |
| Telemetry.ReportCountBound | pythonSourceCode_BioGasLeak_25.py:114-140 | frames stamped no later than `end` produce at most (end − start)/1.0 reports, whatever the frame rate |
| Telemetry.NoReportIffNoneDue | pythonSourceCode_BioGasLeak_25.py:114-115 | nothing is reported iff no frame comes a full interval after the start |
| Regions.Kept | pythonSourceCode_BioGasLeak_25.py:106-108 | a contour is kept iff it is one of the inputs with an area strictly above 500 |
| Regions.ThresholdIsStrict | pythonSourceCode_BioGasLeak_25.py:108 | an area of exactly 500 is dropped and 501 is kept |
| Monitor.Start | pythonSourceCode_BioGasLeak_25.py:32-50 | the loop starts at frame 0 with zoom 1.0 and pan (0, 0), the report clock started at the start time, so a pass at that same time prints nothing |
| Monitor.Iterate | pythonSourceCode_BioGasLeak_25.py:113-167 | a pass reports iff a full interval has passed, and the report is the current frame number with the frame's blocks for the configured bands; it ends the loop iff the key is `q`; otherwise the next view is the key's transition of the current view, the frame number advances, the throttle's last-report time is carried, and the view stays inside its clamps |

## Left out

- Acquisition (lines 8-22, 54-67): the HTTP fetch, `imdecode`, `imutils.resize` and `VideoCapture`, with their two failure policies. These are network and device I/O.
- The scale-back `cv2.resize` after the crop (line 81) and the BGR→HSV `cvtColor` (line 83). These are foreign numerics. `Zoom.CropFrame` stops at the crop, and `Monitor.Iterate` takes the analysed HSV pixels as a parameter.
- `findContours`, `contourArea` and `boundingRect` (lines 106-109). These are OpenCV routines. Only the area filter over given contours is modelled.
- Mean and standard deviation (lines 128-129). These are floating-point statistics.
- Console formatting and `strftime` (lines 116-138), drawing, the zoom overlay, `imshow` and `waitKey` polling (lines 110-111, 142-148), and releasing the device and the windows (lines 169-171). These are I/O and UI. The polled key and the clock are parameters.
- Floating-point drift: zoom, `w / zoom` and the percentage are exact reals. Python's repeated `±0.2` float updates and float division are not modelled.
- Regions.Kept: states which contours are kept, not their order. The order of contour discovery carries no meaning in the source.
- Telemetry.ReportCountBound: requires `start <= end`. With no report the bound would otherwise be negative.
