# Models and proofs for the capture and evidence tools

This project models the parts of the repository that carry real algorithms, and proves what they are
for. Each module follows one source file; code that changes state step by step is a class or a loop
tied to a function on values, and the theorems are about that function, over every input, every run or
every interleaving.

- `AnnexB`, `H264Splitter`: a splitter that turns a stream of chunks into video frames. The reference
  cuts a whole stream at its 4-byte start codes and groups the units by their type (ITU-T H.264, Annex B
  and Table 7-1); the class keeps a residual between pushes. However the stream is cut, both agree.
- `Bytes`, `Numbers`, `Results`: byte strings, orders on numbers, outcomes.
- `SurfacePixels`, `SurfaceStitch`, `SurfaceMeasure`, `SurfaceSamples`, `SurfaceCapture`: a scrolling surface is captured
  page by page, each move is measured, and the pages are stitched. Images are byte strings. The kept pages
  are tied, attempt by attempt, to what any device answered; a finite surface is captured whole, down to a
  last swipe that falls short. Whatever seams are chosen, even crossing ones, the stitched surface is the
  surface itself. `SurfaceSamples` tells differences, scores and rows in the bytes of the images alone.
- `GfxinfoCapture`, `GfxinfoFrames`, `GfxinfoRuns`: frame statistics polled from per-window rings of 120 rows, while windows
  open and close, and frames of two windows may share a key. Exactly which keys, and which frames, a run that ends
  complete has lost, with the exact condition on a poll; and what each frame holds, column by column.
- `FsWatch`, `WorkspaceWatch`: watches on one file and on a workspace, as step systems over changes,
  notifications, reads in flight, errors and stops.
- `VideoRecorder`, `VideoRecorderRuns`, `VideoRecorderWaits`: a rolling screen recording, as a step system over spawns, exits,
  signals, stop, and the recorder processes on the device, which come up, write and end on their own, also while
  the host waits for them, look by look.
- `EvidencePlayback`, `EvidenceFrames`, `EvidenceTimeline`, `EvidenceRows`: clip playback, frame lookup and stepping,
  and marker groups of the evidence player, with the rows told of the markers alone.
- `PressTiming`: which frame, or which line of the app, answers a press.
- `FingerprintBaseline`: a recorded fingerprint, moved into place and taken back when the inputs drift.
- `ScreenFrame`: the envelope of a captured frame, encoder and decoder.

Times are reals; byte counts, rows and trace indices are integers. Reads of the file system, of the
device and of the clock, and the order in which callbacks run, are parameters or events.

Places where the code does less than its comments or an obvious reading promise. The code is modelled as
it is, with the exact condition and an input that shows it:

- A drift is said to leave no baseline for the drifted value behind
  (`packages/adapter-rn/src/fingerprint-baseline.ts:32-33`). A drift seen before the rename leaves a marker that
  already held that value, and one seen after it leaves the new marker when its removal fails
  (`FingerprintBaseline.BaselineLeftByDrift`; an input of each kind: `FingerprintBaseline.DriftLeavesBaseline`).
- `onChange` is said to receive the content on every write (`packages/capabilities/src/fs-watch.ts:31-35`). A write
  is seen exactly if a read takes it before the next one, and then finishes as the newest read with something new
  (`FsWatch.WriteSeenIff`; one that is not seen: `FsWatch.LostWrite`), and a consumer of content alone can be told the
  same text twice (`FsWatch.RepeatExactly`, `FsWatch.DeletedBetween`).
- A capture can call itself complete and have lost a frame, in three ways: the parser skips more than 12 rows of a
  ring, a window closes with frames no poll saw, or frames of two windows share a key, which names no window, and
  one replaces the other (`GfxinfoRuns.SilentLoss`, `GfxinfoRuns.CompleteIffLoud`; inputs:
  `GfxinfoRuns.FloodLosesAFrame`, with 13 skipped rows, `GfxinfoRuns.ClosedWindowLosesAFrame` and
  `GfxinfoRuns.SharedKeyLosesAFrame`).
- A device file is said to be removed only once its recorder has exited
  (`packages/adapter-rn/src/video-recorder.ts:162-165`). How the wait for it ends decides
  (`VideoRecorderRuns.WaitDecides`). Quiet, it has seen to every process but one still to come up, which writes its
  file again (`VideoRecorderRuns.LateProcessWrites`); when its time is up, or the processes could not be listed, the
  process has to have finished; and when the ownership check throws nothing is removed
  (`VideoRecorderRuns.ThrowingCheckLeavesFiles`) until the process exits (`VideoRecorderRuns.ExitTriesAgain`). A stop
  that has its files but cannot remove another local file neither returns nor deletes them
  (`VideoRecorderRuns.StopCleansUp`). The branch of `stop` that keeps all but the last segment without an
  interruption (`packages/adapter-rn/src/video-recorder.ts:277-279`) is never taken, since a failed last segment
  is itself made the interruption.
- A record that sees a drift can take away another writer's baseline (`FingerprintBaseline.AnothersIsRemovedIff`,
  `FingerprintBaseline.SecondWriterLoses`).
- Stepping forward and back does not always return to the same frame time (`EvidenceFrames.ForwardAndBack`,
  `EvidenceFrames.NoWayBack`); a marker can be sought past the end of short media
  (`EvidenceTimeline.SeekPastShortMedia`); media shorter than the start of a clip hold the player there for ever
  (`EvidencePlayback.ShortMediumHolds`).
- One logged line can answer two presses: exactly when the later press shares the line's instant
  (`PressTiming.SharedLine`, `PressTiming.ALineSharedAtOneInstant`).
- A slot id of more than 255 bytes does not survive the envelope (`ScreenFrame.DecodesTo`).

## Model

| member | source | states |
|---|---|---|
| AnnexB.Resume | packages/capabilities/src/screen-h264.ts:28-100 | Resuming from the residual of a stream yields the frames and the residual of the longer stream |
| AnnexB.UnitsAppend | packages/capabilities/src/screen-h264.ts:32-49 | More bytes re-split only the last, incomplete unit |
| AnnexB.UnitsRebuild | packages/capabilities/src/screen-h264.ts:46-49 | Splitting at start codes loses no byte |
| AnnexB.WaitingRefolds | packages/capabilities/src/screen-h264.ts:41-92 | Grouping the kept-back units again rebuilds exactly the dropped loop state |
| AnnexB.PendingMeansOpen | packages/capabilities/src/screen-h264.ts:51-87 | Units are kept back exactly while a parameter set has come and no slice since |
| AnnexB.UnitsConserved | packages/capabilities/src/screen-h264.ts:46-87 | After any number of units, emitted and waiting units are exactly those that do not stand alone, in order |
| AnnexB.ByteConservation | packages/capabilities/src/screen-h264.ts:41-92 | Emitted plus retained bytes are the stream from its first start code without the stand-alone units; once anything is used up the residual begins at a start code |
| AnnexB.FrameShapes | packages/capabilities/src/screen-h264.ts:51-78 | A key frame is an IDR slice alone or runs from a parameter set to the first slice; any other frame is one P slice; where each begins and ends is AnnexB.FramesAre |
| AnnexB.FramesAre | packages/capabilities/src/screen-h264.ts:41-92 | Where frames begin and end, from the types of the units alone: each P slice by itself, each IDR slice with everything from the first open parameter set, and what is open when a P slice comes; exactly these, each once, in order |
| H264Splitter.ChunkInvariance | packages/capabilities/src/screen-h264.ts:25-100 | For every way of cutting a stream into pushes, frames and buffer are those of one push of it all |
| H264Splitter.PushesConserve | packages/capabilities/src/screen-h264.ts:25-100 | For every cutting into pushes, the buffers the handler received, joined, and the bytes held are the stream from its first start code without the stand-alone units; before any unit is used up nothing is received and everything held |
| H264Splitter.PushesFrame | packages/capabilities/src/screen-h264.ts:25-100 | For every cutting into pushes, the frames the handler receives are exactly those spans of the complete units, with their bytes and key flags, in order |
| H264Splitter.ParametersStayWithIdr | packages/capabilities/src/screen-h264.ts:55-67 | The parameter sets open before an IDR slice reach the handler with it, as one key frame |
| H264Splitter.PushesHold | packages/capabilities/src/screen-h264.ts:89-92 | What is held after any pushes: the stream from the first open parameter set on, or from its last start code |
| H264Splitter.UnitsBetweenStartCodes | packages/capabilities/src/screen-h264.ts:30-49 | Units lie between the places where the bytes 0, 0, 0, 1 stand, and what follows the last of these is incomplete |
| H264Splitter.SampleFrames | packages/capabilities/src/screen-h264.ts:55-78 | Two parameter sets, an IDR slice and a P slice: one key frame of 15 bytes, then the P slice |
| H264Splitter.RenderedBytes | packages/capabilities/src/screen-h264.ts:58-77 | The bytes the handler receives, joined, are the units of the frames, joined |
| H264Splitter.FrameSplitter.constructor | packages/capabilities/src/screen-h264.ts:26 | A new splitter has an empty buffer and has emitted nothing |
| H264Splitter.FrameSplitter.Push | packages/capabilities/src/screen-h264.ts:96-99 | After any pushes, what was emitted and what is kept are those of the joined stream |
| H264Splitter.FrameSplitter.Drain | packages/capabilities/src/screen-h264.ts:28-93 | One pass emits the frames of the buffer and leaves its residual; over any pushes they are those of H264Splitter.PushesFrame |
| H264Splitter.FindStartCodes | packages/capabilities/src/screen-h264.ts:30-37 | The scan lists exactly the start codes, in order |
| H264Splitter.GroupUnits | packages/capabilities/src/screen-h264.ts:41-87 | The loop's frames and locals are those of the grouping of the units between start codes, whose frames AnnexB.FramesAre tells from the unit types |
| H264Splitter.Emit | packages/capabilities/src/screen-h264.ts:58-77 | Each group reaches the handler as one buffer with its key flag, in order |
| H264Splitter.SlicesAreUnits | packages/capabilities/src/screen-h264.ts:46-49 | The slices between start codes are the units, and the last start code begins the tail |
| H264Splitter.Leftover | packages/capabilities/src/screen-h264.ts:89-92 | The position the buffer is cut at is where the residual begins |
| H264Splitter.CutLeavesResidual | packages/capabilities/src/screen-h264.ts:89-92 | Whatever the loop leaves in its locals, the cut it makes is the residual |
| H264Splitter.TooFewStarts | packages/capabilities/src/screen-h264.ts:39 | With fewer than two start codes there is no frame and everything is kept |
| H264Splitter.TypeRead | packages/capabilities/src/screen-h264.ts:49 | The type byte read is the unit's own, or a zero of the next start code, always inside the buffer |
| H264Splitter.ConcatBuffers | packages/capabilities/src/screen-h264.ts:14-23 | The parts joined end to end |
| SurfaceStitch.SampledSeamDifference | packages/adapter-rn/src/agent-device-ui-transport.ts:1516-1544 | The loop computes the joint's score; it samples at least once |
| SurfaceStitch.ReadChannelCost | packages/adapter-rn/src/agent-device-ui-transport.ts:1529-1540 | Six reads by byte offset are the six neighbouring pixels, all inside the images |
| SurfaceStitch.ChooseSurfaceSeam | packages/adapter-rn/src/agent-device-ui-transport.ts:1487-1514 | The first row with the least score over [revealedRows + 2, height - 2] |
| SurfaceStitch.OneBestSeam | packages/adapter-rn/src/agent-device-ui-transport.ts:1498-1512 | There is exactly one such row |
| SurfaceStitch.CopyImageRows | packages/adapter-rn/src/agent-device-ui-transport.ts:1546-1564 | Positive counts copy whole rows to their place and keep what is above and below; other counts copy nothing |
| SurfaceStitch.FixedOffset | packages/adapter-rn/src/agent-device-ui-transport.ts:1452-1480 | At every page the cursor is the page's offset plus the first row taken, wherever the seams lie |
| SurfaceStitch.StitchIsExact | packages/adapter-rn/src/agent-device-ui-transport.ts:1452-1480 | For any seams, even crossing ones, the rows placed are the tall surface from its top |
| SurfaceStitch.RegionStep | packages/adapter-rn/src/agent-device-ui-transport.ts:1466-1479 | A page appends its rows, or takes rows back when seams cross |
| SurfaceStitch.PagePlaced | packages/adapter-rn/src/agent-device-ui-transport.ts:1467-1475 | After the copy of a page the output begins with the next region |
| SurfaceStitch.ReachedBound | packages/adapter-rn/src/agent-device-ui-transport.ts:1452-1480 | No page reaches below the last one; the region ends where the last page ends |
| SurfaceStitch.OutputSize | packages/adapter-rn/src/agent-device-ui-transport.ts:1441-1450 | The allocated size is exactly leading rows, region and trailing rows |
| SurfaceStitch.SurfaceReproduced | packages/adapter-rn/src/agent-device-ui-transport.ts:1420-1485 | With the seams the search picks, the region is the whole captured surface |
| SurfaceStitch.SumRevealed | packages/adapter-rn/src/agent-device-ui-transport.ts:1446-1447 | The sum of revealed rows is the offset of the last page |
| SurfaceStitch.PlacePages | packages/adapter-rn/src/agent-device-ui-transport.ts:1452-1480 | The page loop fails exactly on images of different sizes, saying so, and otherwise leaves the full region and cursor |
| SurfaceStitch.FillOutput | packages/adapter-rn/src/agent-device-ui-transport.ts:1451-1484 | The output is leading rows, region, trailing rows |
| SurfaceStitch.StitchSurfacePages | packages/adapter-rn/src/agent-device-ui-transport.ts:1420-1485 | Succeeds exactly for pages of one size, and says why otherwise; at full width the image is the first screenshot's bytes above its surface, the region, and the last one's bytes below its surface, and else the region alone, of the size that makes |
| SurfaceStitch.BadSizeMeansMixed | packages/adapter-rn/src/agent-device-ui-transport.ts:1442-1450 | A negative image size can only come from screenshots of different sizes |
| SurfaceStitch.FramedWhole | packages/adapter-rn/src/agent-device-ui-transport.ts:1438-1484 | Lead, region and trail, in bytes: at full width the first screenshot above its surface and the last one below its surface, else the region alone, with the height that makes |
| SurfaceSamples.RowsComeFrom | packages/adapter-rn/src/agent-device-ui-transport.ts:1452-1480 | A row that a page gives is in the region, at the page's offset, byte for byte as that page shows it, unless a later page goes back above it |
| SurfaceSamples.ChannelCostIs | packages/adapter-rn/src/agent-device-ui-transport.ts:1529-1540 | The cost of a channel in bytes: the difference across the seam counts twice, the edges of either page once |
| SurfaceSamples.ScoreZeroIff | packages/adapter-rn/src/agent-device-ui-transport.ts:1524-1543 | A seam scores 0 if and only if every compared column matches across it and is plain above and below |
| SurfaceSamples.UniformScore | packages/adapter-rn/src/agent-device-ui-transport.ts:1537-1543 | Where every compared byte has the same edges, the score is exactly twice the one across plus the two others, over 4 |
| SurfaceSamples.BestSeamIs | packages/adapter-rn/src/agent-device-ui-transport.ts:1494-1513 | The seam picked is the first row of least score at least two rows off the edges of the overlap |
| SurfaceMeasure.SampledSurfaceDifference | packages/adapter-rn/src/agent-device-ui-transport.ts:1612-1643 | The loops compute the mean of the sampled, sorted and trimmed differences; in bytes, SurfaceSamples.MeanZeroIff and SurfaceSamples.UniformMean |
| SurfaceSamples.PixelDifferenceIs | packages/adapter-rn/src/agent-device-ui-transport.ts:1626-1634 | The difference of a sampled pixel is the mean of the distances of its red, green and blue bytes |
| SurfaceSamples.MeanZeroIff | packages/adapter-rn/src/agent-device-ui-transport.ts:1612-1643 | The mean is 0 if and only if every sampled pixel, each fourth one of each fourth row, agrees in red, green and blue |
| SurfaceSamples.UniformMean | packages/adapter-rn/src/agent-device-ui-transport.ts:1628-1642 | Pages that differ by the same amounts at every sampled pixel have exactly the mean of the three channels, trimmed or not |
| SurfaceSamples.FourFifthsKept | packages/adapter-rn/src/agent-device-ui-transport.ts:1638-1641 | Trimming keeps four fifths of the samples, rounded up |
| SurfaceMeasure.SomeRowSampled | packages/adapter-rn/src/agent-device-ui-transport.ts:1624-1637 | At least one row is sampled, so the mean is never infinite |
| SurfaceMeasure.RetainedAreLeast | packages/adapter-rn/src/agent-device-ui-transport.ts:1638-1641 | Trimming keeps the smallest of the sampled differences |
| SurfaceMeasure.MeanNotNegative | packages/adapter-rn/src/agent-device-ui-transport.ts:1629-1642 | No mean difference is negative |
| SurfaceMeasure.TrueDistanceMatches | packages/adapter-rn/src/agent-device-ui-transport.ts:1612-1643 | At the true distance the mean difference is zero |
| SurfaceMeasure.MeasureRevealedRows | packages/adapter-rn/src/agent-device-ui-transport.ts:1566-1610 | 0 exactly when the pages match in place; else the first distance of least score, which matches well enough; the one failure only when the match there is too poor or nothing overlaps |
| SurfaceSamples.BestDistanceIs | packages/adapter-rn/src/agent-device-ui-transport.ts:1587-1603 | The distance measured is the first of least mean plus 8 times the share by which it misses the request, among those that leave at least 4 rows and 12 in 100 of overlap |
| SurfaceMeasure.ExactMove | packages/adapter-rn/src/agent-device-ui-transport.ts:1587-1609 | A move by exactly the requested rows is the unique minimum |
| SurfaceMeasure.MeasuredExactlyIff | packages/adapter-rn/src/agent-device-ui-transport.ts:1587-1604 | A move by any number of rows, requested or not, is measured exactly if and only if no distance nearer to the request passes for it |
| SurfaceMeasure.ShortMoveMeasured | packages/adapter-rn/src/agent-device-ui-transport.ts:1597-1604 | A swipe that falls short is measured exactly if at every nearer distance the pages differ by at least 8 times the missing share |
| SurfaceMeasure.PenaltyOrder | packages/adapter-rn/src/agent-device-ui-transport.ts:1595-1596 | The penalty orders distances as their distance from the request does |
| SurfaceCapture.Measure | packages/adapter-rn/src/agent-device-ui-transport.ts:1131-1137 | 0 exactly if the surface did not move; else the measured rows or the failure, against the last page |
| SurfaceCapture.OneMeasure | packages/adapter-rn/src/agent-device-ui-transport.ts:1566-1610 | A measured shot is neither stationary nor unmeasurable, and is measured one way |
| SurfaceCapture.CaptureSurface | packages/adapter-rn/src/agent-device-ui-transport.ts:1099-1171 | At most 3 x max_scrolls swipes. The pages are the first screenshot and exactly the shots of the attempts kept, in order, each with its measured rows; every other attempt is stationary against the page then last, at most three running. Success means the end was seen after the last swipe and not before; each failure has its cause, and no swipe follows the third stationary one |
| SurfaceCapture.EndIs | packages/adapter-rn/src/agent-device-ui-transport.ts:1104-1165 | The end counts as seen by the marker on the last shot, as the swipe went or as it stopped, or, without a marker to wait for, when a swipe kept no page |
| SurfaceCapture.FailsMeans | packages/adapter-rn/src/agent-device-ui-transport.ts:1107-1171 | Each failure has its own cause: three swipes running that moved nothing and showed no marker, the allowed moves used up, or a last shot that matches nowhere |
| SurfaceCapture.RunIsChained | packages/adapter-rn/src/agent-device-ui-transport.ts:1131-1165 | The pages of any run lie inside their images, and pages of one size have moved by 1 to height minus the minimum overlap |
| SurfaceCapture.IdealMove | packages/adapter-rn/src/agent-device-ui-transport.ts:1103-1137 | Two pages of one tall surface are measured to show the rows the swipe really moved |
| SurfaceCapture.RequestedIsNotMistaken | packages/adapter-rn/src/agent-device-ui-transport.ts:1595-1604 | A move by exactly the requested rows is never mistaken, so an ideal device may move so |
| SurfaceCapture.IdealTrace | packages/adapter-rn/src/agent-device-ui-transport.ts:1103-1165 | While swipes are ideal every attempt keeps its page, and the pages are those of the surface |
| SurfaceCapture.FiniteIsCaptured | packages/adapter-rn/src/agent-device-ui-transport.ts:1099-1173 | A surface whose bottom n swipes reach, n below max_scrolls: the capture succeeds after n + 1 swipes with n + 1 pages, with a marker or without |
| SurfaceCapture.MarkerEndsCapture | packages/adapter-rn/src/agent-device-ui-transport.ts:1099-1173 | A capture that waits for a marker ends where it first shows |
| SurfaceCapture.TooFewMoves | packages/adapter-rn/src/agent-device-ui-transport.ts:1167-1171 | With no end in sight within the allowed moves the capture fails with that, after exactly max_scrolls swipes |
| SurfaceCapture.IdealPagesShow | packages/adapter-rn/src/agent-device-ui-transport.ts:1103-1165 | The pages of an ideal device can be stitched and show the tall surface at their offsets |
| SurfaceCapture.IdealSurface | packages/adapter-rn/src/agent-device-ui-transport.ts:1099-1173 | The stitched region is the tall surface as far as it was swiped, all its bytes when the bottom was reached |
| SurfaceCapture.CaptureImage | packages/adapter-rn/src/agent-device-ui-transport.ts:1086-1173 | For every device the image is the region of exactly the pages kept between the screenshots' own bytes above and below, failing only with the capture or on pages that cannot be stitched; a finite surface yields the whole surface as the region; a marker yields it as far as it was swiped |
| GfxinfoCapture.ParseFrameStats | packages/adapter-rn/src/android-gfxinfo-performance.ts:406-469 | The line loop computes the parse of the lines, failing on an unsupported or missing header; by column, GfxinfoFrames.ParsedFramesAre |
| GfxinfoFrames.ParsedFramesAre | packages/adapter-rn/src/android-gfxinfo-performance.ts:424-459 | By column: one frame for each row of a section with flags 0 and positive, ordered times, holding exactly its columns or the defaults of absent ones, in order, and nothing else; every frame starts before it completes |
| GfxinfoFrames.ParseEnds | packages/adapter-rn/src/android-gfxinfo-performance.ts:412-469 | A parse fails exactly on a header that lacks a column or on sections without a header; otherwise it tells whether a section had 120 rows and whether every header had the input events |
| GfxinfoCapture.DumpReadsBack | packages/adapter-rn/src/android-gfxinfo-performance.ts:406-469 | A printed dump reads back as exactly the kept rows of every window and whether some ring was full; what a kept row yields is GfxinfoFrames.ParsedFramesAre |
| GfxinfoCapture.FrameCapture.constructor | packages/adapter-rn/src/android-gfxinfo-performance.ts:163-172 | A capture starts empty |
| GfxinfoCapture.FrameCapture.AddGap | packages/adapter-rn/src/android-gfxinfo-performance.ts:611-615 | A gap is recorded once |
| GfxinfoCapture.FrameCapture.TakeFrames | packages/adapter-rn/src/android-gfxinfo-performance.ts:250-258 | The loop takes frames by key until the retention limit and counts new keys |
| GfxinfoCapture.FrameCapture.Poll | packages/adapter-rn/src/android-gfxinfo-performance.ts:235-269 | One poll changes the capture as the poll function says, failures included |
| GfxinfoCapture.FrameCapture.Result | packages/adapter-rn/src/android-gfxinfo-performance.ts:272-284 | Unavailable exactly without frames, complete exactly with frames and without a gap, else partial |
| GfxinfoCapture.IntakeSound | packages/adapter-rn/src/android-gfxinfo-performance.ts:249-258 | The limit is never passed, the count is the growth, nothing is forgotten, and short of the limit every key is held |
| GfxinfoFrames.LastIsHeld | packages/adapter-rn/src/android-gfxinfo-performance.ts:255-257 | Under a key the last frame offered is held |
| GfxinfoFrames.FullAtLimit | packages/adapter-rn/src/android-gfxinfo-performance.ts:251-254 | An intake is cut short only with 100000 frames held, and never passes that |
| GfxinfoFrames.GapsAre | packages/adapter-rn/src/android-gfxinfo-performance.ts:247-264 | A poll adds exactly the gaps it has cause for: a failure, the limit, or a full ring with at least 108 new keys; a failed poll changes nothing else |
| GfxinfoFrames.ShownIs | packages/adapter-rn/src/android-gfxinfo-performance.ts:29-30 | A dump shows a row exactly if its window is open and fewer than 120 rows came after it |
| GfxinfoRuns.HeldUnlessMissed | packages/adapter-rn/src/android-gfxinfo-performance.ts:247-261 | Short of the limit, a key is held after a poll exactly if not every frame with it was overwritten or closed away unseen |
| GfxinfoRuns.TakenIff | packages/adapter-rn/src/android-gfxinfo-performance.ts:249-258 | Short of the limit a poll adds exactly the keys that the dump shows |
| GfxinfoRuns.GainedIsFresh | packages/adapter-rn/src/android-gfxinfo-performance.ts:249-258 | The new-frame count is the number of keys shown and not held before |
| GfxinfoRuns.SilentLoss | packages/adapter-rn/src/android-gfxinfo-performance.ts:247-261 | One poll loses a key without a gap if and only if every frame with it was overwritten or closed away unseen, no ring is full or fewer than 108 of the keys seen are new, and the limit did not stop it |
| GfxinfoRuns.FewSkippedIsLoud | packages/adapter-rn/src/android-gfxinfo-performance.ts:29-30 | If of the rows new to the poll in every ring at most 12 are skipped or repeat a key, and no window closed with an unseen frame, no poll loses silently |
| GfxinfoRuns.ProperRunKeeps | packages/adapter-rn/src/android-gfxinfo-performance.ts:235-269 | In every run, keys shared or not, the frames held were rendered and the limit is kept |
| GfxinfoFrames.HeldFramesAre | packages/adapter-rn/src/android-gfxinfo-performance.ts:247-258 | In every run each frame held has, column by column, what some window rendered, under its own key, and starts before it completes |
| GfxinfoRuns.LoudRunKeeps | packages/adapter-rn/src/android-gfxinfo-performance.ts:235-269 | In every run whose polls lose nothing silently, a capture without a gap holds every key polled so far |
| GfxinfoRuns.CompleteIffNotGone | packages/adapter-rn/src/android-gfxinfo-performance.ts:176-186 | In a run that ends with a poll and status complete, a rendered key is held if and only if no poll lost it silently or a later one was shown it again |
| GfxinfoRuns.AllHeldIff | packages/adapter-rn/src/android-gfxinfo-performance.ts:255-257 | Frames are held as rendered exactly if their keys are held and no two different frames share a key |
| GfxinfoFrames.AllHeldRecords | packages/adapter-rn/src/android-gfxinfo-performance.ts:439-458 | Frames held as rendered means: every usable row of every window is held, column by column |
| GfxinfoRuns.CompleteIffLoud | packages/adapter-rn/src/android-gfxinfo-performance.ts:176-186 | A complete capture holds every key exactly if none is gone, and every frame exactly if, moreover, no two different frames share a key; where no two frames share one, exactly if no poll lost one silently |
| GfxinfoRuns.CompleteMeansNothingLost | packages/adapter-rn/src/android-gfxinfo-performance.ts:176-186 | However opening, rendering, closing and polls interleave, with at most 12 skipped or repeating rows and no unseen frame in a closed window at each poll, a capture that ends complete holds every key since the reset, and every frame exactly if no two different ones share a key; it never holds more than the limit |
| GfxinfoRuns.FloodLosesAFrame | packages/adapter-rn/src/android-gfxinfo-performance.ts:440-458 | The bound of 12 is tight: one frame, 13 skipped rows and 107 more frames end complete without the first |
| GfxinfoRuns.ClosedWindowLosesAFrame | packages/adapter-rn/src/android-gfxinfo-performance.ts:247-261 | A window that closes between polls takes its frame along, and the capture ends complete |
| GfxinfoRuns.SharedKeyLosesAFrame | packages/adapter-rn/src/android-gfxinfo-performance.ts:255-257 | Two windows draw at one vertical sync: the dump shows both frames, one is held, and the capture ends complete |
| FsWatch.FileWatch.constructor | packages/capabilities/src/fs-watch.ts:42-46 | A watch starts armed, unless the directory is missing, with nothing observed |
| FsWatch.StartWatch | packages/capabilities/src/fs-watch.ts:80-98 | Refused exactly for a missing directory and a consumer of failures |
| FsWatch.FileWatch.OnEvent | packages/capabilities/src/fs-watch.ts:94-98 | A matching notification wakes the consumer or starts a read of a new generation |
| FsWatch.FileWatch.Observe | packages/capabilities/src/fs-watch.ts:58-60 | A read starts with the next generation, unless stopped |
| FsWatch.FileWatch.FinishObserve | packages/capabilities/src/fs-watch.ts:67-78 | A read counts only as the newest, before a stop, and when it differs; then it makes its call |
| FsWatch.FileWatch.OnError | packages/capabilities/src/fs-watch.ts:99-118 | A watcher failure closes the watch and is told once |
| FsWatch.FileWatch.Stop | packages/capabilities/src/fs-watch.ts:124-131 | Stop closes the watch and outdates every read |
| FsWatch.EveryRunKeeps | packages/capabilities/src/fs-watch.ts:58-131 | The invariant of order and convergence holds in every reachable state |
| FsWatch.ObservationsInOrder | packages/capabilities/src/fs-watch.ts:58-78 | Observations never go back in file history, are true to it, and consecutive ones differ |
| FsWatch.CallsAreObservations | packages/capabilities/src/fs-watch.ts:70-78 | The calls are exactly those of the observations, in order, then at most one failure |
| FsWatch.OneCallEach | packages/capabilities/src/fs-watch.ts:70-72 | A consumer of failures gets one call for each observation, a text as it is and anything else as what it was, never two equal ones running |
| FsWatch.StoppedIsSilent | packages/capabilities/src/fs-watch.ts:67-131 | After a stop or a failure nothing is ever observed or called |
| FsWatch.QuietMeansCurrent | packages/capabilities/src/fs-watch.ts:58-98 | Once reads are quiet after a notification that followed the last change, the last observation is the file's state; a consumer of failures was told so last, one of content alone was told last the last text there was |
| FsWatch.LastTextIsTold | packages/capabilities/src/fs-watch.ts:70-78 | The last call to a consumer of content alone tells the last text observed |
| FsWatch.WriteSeenIff | packages/capabilities/src/fs-watch.ts:58-78 | A write is seen if and only if some read takes it as the file's state of that moment and finishes as the newest one, before any stop, with a state that differs from the last observed |
| FsWatch.LostWrite | packages/capabilities/src/fs-watch.ts:58-78 | Two writes before the read: the first is never seen or told |
| FsWatch.RepeatExactly | packages/capabilities/src/fs-watch.ts:68-78 | A consumer of content alone is told a text twice running exactly after a failure it did not hear of |
| FsWatch.DeletedBetween | packages/capabilities/src/fs-watch.ts:68-78 | The run that shows such a repeat |
| FsWatch.OnlyWakeups | packages/capabilities/src/fs-watch.ts:96 | With notifications only, no file is read and every call is a bare wake-up but for a last failure |
| FsWatch.NoticeIs | packages/capabilities/src/fs-watch.ts:94-98 | A notification of another file does nothing; one of the file wakes the consumer or starts the next read |
| FsWatch.FinishIs | packages/capabilities/src/fs-watch.ts:67-78 | Only the newest read, before a stop and with something new, changes what was seen; it tells a text as it is, and a failure only to a consumer of failures |
| FsWatch.EndIs | packages/capabilities/src/fs-watch.ts:99-131 | A failure of the watcher is told, or thrown where nobody listens, once; it closes the watch as a stop does |
| FsWatch.EveryCallAsAsked | packages/capabilities/src/fs-watch.ts:70-118 | In every run a consumer hears of texts, bare notifications and failures only as it asked to |
| FsWatch.OtherFilesAreIgnored | packages/capabilities/src/fs-watch.ts:95 | In every run without a notification of the file, no read is started and nothing but a failure is told |
| FsWatch.WokenEachTime | packages/capabilities/src/fs-watch.ts:94-97 | A consumer of bare notifications is woken exactly once for each notification of its file |
| VideoRecorder.AndroidRecording.constructor | packages/adapter-rn/src/video-recorder.ts:101-105 | A recording starts with no segment and both guards |
| VideoRecorder.AndroidRecording.StartSegment | packages/adapter-rn/src/video-recorder.ts:109-127 | A segment is added, live and starting, with its device file |
| VideoRecorder.AndroidRecording.OnSegmentExit | packages/adapter-rn/src/video-recorder.ts:128-140 | The end is recorded; then nothing, an interruption, or the next segment |
| VideoRecorder.AndroidRecording.StopOwnedRecorders | packages/adapter-rn/src/video-recorder.ts:166-185 | Exactly the live segments are marked killed; with one live the device, which goes on meanwhile, is waited for, with a grace while a pid is unknown; each process seen is interrupted once; it throws exactly if a check does before the wait ends; the grace is the second of VideoRecorderWaits.StopIs |
| VideoRecorder.AndroidRecording.WaitForProcesses | packages/adapter-rn/src/video-recorder.ts:169-183 | The polling loop ends quiet, timed out or with the throwing check, as the processes then running decide, and signals each process seen before that once |
| VideoRecorder.AndroidRecording.Abandon | packages/adapter-rn/src/video-recorder.ts:186-191 | Device files and then named local files are removed, in the order named and up to the first whose removal throws, unless the stop threw first |
| VideoRecorder.AndroidRecording.Release | packages/adapter-rn/src/video-recorder.ts:377-380 | The guards go only if abandoning did not throw |
| VideoRecorder.AndroidRecording.Interrupt | packages/adapter-rn/src/video-recorder.ts:193-205 | A signal marks the recording; with a listener it stops the recorders, without one it abandons |
| VideoRecorder.AndroidRecording.PullKept | packages/adapter-rn/src/video-recorder.ts:288-306 | The pull loop ends at the first pull that fails or cannot be read back, the latter as an exception, and names every file it touched |
| VideoRecorder.AndroidRecording.Collect | packages/adapter-rn/src/video-recorder.ts:274-335 | What stop keeps, pulls and names, the interruption it reports, and every way it fails: nothing kept, no staging directory, an unreadable file, nothing recorded, no timing evidence |
| VideoRecorderRuns.EveryRunKeeps | packages/adapter-rn/src/video-recorder.ts:109-383 | The invariant of segments, phases and files holds in every interleaving |
| VideoRecorderRuns.AtMostOneLive | packages/adapter-rn/src/video-recorder.ts:128-140 | At most one segment is live, and it is the last |
| VideoRecorderRuns.SpawnsOnlyOnRoll | packages/adapter-rn/src/video-recorder.ts:132-140 | A segment is spawned exactly by the normal end of the running one, its process seen and not killed, before any stop, signal or failure |
| VideoRecorderRuns.NoSpawnOnceEnding | packages/adapter-rn/src/video-recorder.ts:132 | Once stopping or interrupted, nothing is spawned in any continuation |
| VideoRecorderRuns.SegmentEndIs | packages/adapter-rn/src/video-recorder.ts:128-140 | The end of a segment in full: heeded, a normal end starts the next segment and any other interrupts the recording; otherwise it is only recorded |
| VideoRecorderRuns.PhaseStep | packages/adapter-rn/src/video-recorder.ts:216-383 | Which event takes a caller from which phase to which, and that the start, the stop and the report settle when they can |
| VideoRecorderRuns.LaterStartFails | packages/adapter-rn/src/video-recorder.ts:137-139 | A later segment that does not come up interrupts the recording, unless something did before |
| VideoRecorderRuns.EndRemoves | packages/adapter-rn/src/video-recorder.ts:186-228 | An ending removes the device files if no check throws with a live segment and the removal works; locally it leaves the files handed over and those the removal did not get to; the exit listener stays armed exactly when abandoning threw |
| VideoRecorderRuns.StaysCleanIff | packages/adapter-rn/src/video-recorder.ts:162-165 | After the end no device file ever comes back exactly if none is there and every process has finished |
| VideoRecorderRuns.EndCleansUp | packages/adapter-rn/src/video-recorder.ts:186-228 | When a recording ends, in any way, local files not returned are gone unless a removal throws, and device files are gone for good exactly if they were removed and the last segment's process had finished by then |
| VideoRecorderRuns.QuietLook | packages/adapter-rn/src/video-recorder.ts:169-176 | A wait that ends on a quiet, listed look leaves no owned process running |
| VideoRecorderRuns.WaitDecides | packages/adapter-rn/src/video-recorder.ts:162-191 | Whether the device stays clean, by how the wait ends. None needed: exactly if removed and the last segment ended normally or its process has finished. Quiet: exactly if removed and no live process was still to come up. Timed out or not listed: exactly if removed and it has finished. Thrown: exactly if nothing was there and it has finished |
| VideoRecorderWaits.WaitIs | packages/adapter-rn/src/video-recorder.ts:169-183 | Which look ends a wait: the first that comes after 10 seconds, throws, or lists no process from a given time on; exactly the processes listed before are seen |
| VideoRecorderWaits.StopIs | packages/adapter-rn/src/video-recorder.ts:166-183 | Stopping the recorders: nothing is waited for without a live segment; otherwise that look, listing nothing only from 1 second on if the pid of a live segment is not known |
| VideoRecorderWaits.GraceIsWaitedOut | packages/adapter-rn/src/video-recorder.ts:171-176 | While the pid of a live segment is not known, no wait is over in the first second |
| VideoRecorderWaits.SeenInGrace | packages/adapter-rn/src/video-recorder.ts:174-182 | A process that a look of that second lists is interrupted |
| VideoRecorderWaits.UpInGraceIsClean | packages/adapter-rn/src/video-recorder.ts:162-191 | An ending quiet with its processes listed is clean, for every recorder that comes up in the first second, exactly if the removal works or nothing was there |
| VideoRecorderWaits.LateStartCleansUp | packages/adapter-rn/src/video-recorder.ts:171-191 | A signal before the process is up: it comes up after 100 ms, is interrupted, and the device stays clean |
| VideoRecorderWaits.SignalIs | packages/adapter-rn/src/video-recorder.ts:193-205 | A signal marks the recording as interrupted by it; where the host has a listener no file is touched and the exit guard stays |
| VideoRecorderRuns.InterruptCleansUp | packages/adapter-rn/src/video-recorder.ts:193-205 | The ordinary interruption: the process is seen, gone at the next look, and the device stays clean |
| VideoRecorderRuns.ExitTriesAgain | packages/adapter-rn/src/video-recorder.ts:191-220 | After an ending whose abandoning threw, the exit of the process cleans up under the same condition and removes the local files still named |
| VideoRecorderRuns.LateProcessWrites | packages/adapter-rn/src/video-recorder.ts:169-185 | A segment gives up and is waited for in vain; its process comes up afterwards and writes its file again |
| VideoRecorderRuns.StopCleansUp | packages/adapter-rn/src/video-recorder.ts:308-380 | A stop that has its files returns them unless removing another local file throws, and then neither returns nor deletes them; if its last segment ended normally, the device files are gone for good exactly if the removal works or none was there |
| VideoRecorderRuns.ThrowingCheckLeavesFiles | packages/adapter-rn/src/video-recorder.ts:221-228 | A failed start whose check throws leaves its device file and the exit listener armed |
| VideoRecorderRuns.KeepsWhatEndedWell | packages/adapter-rn/src/video-recorder.ts:274-279 | Stop keeps exactly the segments that ended normally: all of them, or all but a last one that failed, in order |
| VideoRecorderRuns.RecordedIs | packages/adapter-rn/src/video-recorder.ts:288-306 | Recorded are the non-empty files before the first failing pull, in order |
| VideoRecorderRuns.InterruptedByPulls | packages/adapter-rn/src/video-recorder.ts:299-305 | Pulls interrupt exactly when one fails or is empty, unless a file cannot be read back |
| VideoRecorderRuns.FirstBadPull | packages/adapter-rn/src/video-recorder.ts:299-305 | The first pull that failed or was empty is the one blamed |
| VideoRecorderRuns.FilesNamed | packages/adapter-rn/src/video-recorder.ts:289-299 | A local file is named for each pull up to the first that fails, and written where the pull wrote one |
| VideoRecorderRuns.UnlinkedIs | packages/adapter-rn/src/video-recorder.ts:190 | Local files go in the order they were named, the timing evidence last, up to the first whose removal throws |
| EvidencePlayback.PlayerModel.Select | packages/adapter-sdk/src/evidence-review-model.ts:898-946 | A selection starts at its first clip |
| EvidencePlayback.PlayerModel.SelectVideo | packages/adapter-sdk/src/evidence-review-model.ts:1449-1464 | Selecting through a video shows its first clip, or leaves no clip |
| EvidencePlayback.PlayerModel.ClearSelection | packages/adapter-sdk/src/evidence-review-model.ts:1522-1525 | No selection and clip index 0 |
| EvidencePlayback.PlayerModel.CueClip | packages/adapter-sdk/src/evidence-review-model.ts:1539-1543 | An existing clip is cued at its start; any other index only pauses |
| EvidencePlayback.PlayerModel.SeekClip | packages/adapter-sdk/src/evidence-review-model.ts:1544-1549 | A seek is clamped into the clip, to the nearer end from outside, and kept when inside |
| EvidencePlayback.PlayerModel.AdvanceClip | packages/adapter-sdk/src/evidence-review-model.ts:784-790 | The next clip from its start, or a pause at the end of the last |
| EvidencePlayback.PlayerModel.PlaybackAt | packages/adapter-sdk/src/evidence-review-model.ts:1550-1559 | The reply to a clock time, and the index still names a clip |
| EvidencePlayback.CuedIs | packages/adapter-sdk/src/evidence-review-model.ts:1539-1543 | Cueing a clip that is there shows it from its start as another source; any other index only pauses |
| EvidencePlayback.PlayedIs | packages/adapter-sdk/src/evidence-review-model.ts:1550-1559 | The reply to a clock time, case by case: of another video, before the clip, inside it, and at its end or the medium's |
| EvidencePlayback.SeeksInsideClip | packages/adapter-sdk/src/evidence-review-model.ts:784-790 | Every seek lies in the clip it asks for |
| EvidencePlayback.TickInOrder | packages/adapter-sdk/src/evidence-review-model.ts:1550-1559 | A tick stays or moves to the next clip; a clock at rest stays at rest |
| EvidencePlayback.VisitsEvery | packages/adapter-sdk/src/evidence-review-model.ts:1550-1559 | No clip is skipped |
| EvidencePlayback.RunEndsIffPlayable | packages/adapter-sdk/src/evidence-review-model.ts:1550-1559 | A clock comes to rest at the last clip's end, within a bound, if and only if every remaining medium reaches its clip's start |
| EvidencePlayback.ShortMediumHolds | packages/adapter-sdk/src/evidence-review-model.ts:1553 | A medium that ends before its clip starts holds the clock for ever |
| EvidenceTimeline.ClipsAreOrderedIff | packages/adapter-sdk/src/evidence-review-model.ts:791-805 | The clips built for markers, or for the first and last marker of a group, start no later than they end if and only if each span meets its recording, padding included, and does not end two paddings before it starts |
| EvidenceRows.ClipIs | packages/adapter-sdk/src/evidence-review-model.ts:791-805 | A clip takes a second more at either end than its markers, as far as the recording goes |
| EvidenceTimeline.SoughtClipIsOrdered | packages/adapter-sdk/src/evidence-review-model.ts:791-805 | A marker of a valid recording that can be sought gives an ordered clip that holds all of it the recording has |
| EvidenceTimeline.GroupClipIsOrdered | packages/adapter-sdk/src/evidence-review-model.ts:1506-1518 | The clip of a measured group, from its earliest start to its latest end, is ordered |
| EvidenceFrames.UpperFrame | packages/adapter-sdk/src/evidence-review-model.ts:1597-1606 | The search returns the number of frames up to a time |
| EvidenceFrames.DisplayedFrameRange | packages/adapter-sdk/src/evidence-review-model.ts:1575-1593 | A range exactly for times in [first frame, duration): it holds the time, starts at a frame, and no frame lies inside |
| EvidenceFrames.RangesPart | packages/adapter-sdk/src/evidence-review-model.ts:1575-1593 | Two ranges are equal or disjoint, so they part the recording |
| EvidenceFrames.AdjacentFrame | packages/adapter-sdk/src/evidence-review-model.ts:1561-1574 | A step yields the next greater or smaller frame time, skipping duplicates, or stays at an end |
| EvidenceFrames.ForwardAndBack | packages/adapter-sdk/src/evidence-review-model.ts:1561-1574 | Forward then back returns exactly when the frame between has no later frame within 0.001 ms, with the case of the last frame |
| EvidenceFrames.NoWayBack | packages/adapter-sdk/src/evidence-review-model.ts:1561-1574 | Two frames half a microsecond apart: a step forward reaches the first, and a step back stays there |
| EvidenceFrames.BackAndForward | packages/adapter-sdk/src/evidence-review-model.ts:1561-1574 | Back then forward returns exactly when the frames are more than 0.001 ms apart, or from the last frame |
| EvidenceTimeline.SeekBounds | packages/adapter-sdk/src/evidence-review-model.ts:1054-1066 | A marker time is never before the first frame, and within frames and media exactly if the media reach the first frame |
| EvidenceRows.SeekIs | packages/adapter-sdk/src/evidence-review-model.ts:1054-1066 | No time where the range misses the frames or the recording, else the middle of the range or the nearest time to it that the frames and the recording have |
| EvidenceTimeline.SeekOrdered | packages/adapter-sdk/src/evidence-review-model.ts:1054-1066 | A marker's start is never after its end |
| EvidenceTimeline.SeekPastShortMedia | packages/adapter-sdk/src/evidence-review-model.ts:1057-1066 | A seek past the end of the media |
| EvidenceTimeline.SortSorts | packages/adapter-sdk/src/evidence-review-timeline.ts:49-51 | The sort orders by start and trace index and keeps every marker |
| EvidenceTimeline.OneOrder | packages/adapter-sdk/src/evidence-review-timeline.ts:49-51 | With unique trace indices the sorted order is unique |
| EvidenceTimeline.LabelsAre | packages/adapter-sdk/src/evidence-review-timeline.ts:59-71 | A marker is shown under each of its claims once, or under exactly one phase |
| EvidenceTimeline.FillGroups | packages/adapter-sdk/src/evidence-review-timeline.ts:57-81 | The loop fills the groups as the grouping function says |
| EvidenceTimeline.PutLabels | packages/adapter-sdk/src/evidence-review-timeline.ts:70-80 | One marker is added under all its labels |
| EvidenceTimeline.GroupsAre | packages/adapter-sdk/src/evidence-review-timeline.ts:57-81 | The groups are exactly the labels, each once, with exactly their markers in order |
| EvidenceTimeline.MarkerIsShown | packages/adapter-sdk/src/evidence-review-timeline.ts:58-81 | Every marker lands in the group of each bound claim, or else in one phase group, and nowhere else |
| EvidenceRows.PhaseIs | packages/adapter-sdk/src/evidence-review-timeline.ts:59-68 | Setup is before every marker that proves something, teardown after every one, other is neither |
| EvidenceRows.LabelledIff | packages/adapter-sdk/src/evidence-review-timeline.ts:58-69 | A marker is shown under a claim exactly if it proves it or belongs to it as the one asked for, and under its phase exactly if there is none |
| EvidenceRows.LabelsInOrder | packages/adapter-sdk/src/evidence-review-timeline.ts:58-70 | The claims of a marker come in the order it names them, each once, the one asked for last |
| EvidenceTimeline.BoundsAre | packages/adapter-sdk/src/evidence-review-timeline.ts:52-56 | First and last are the least and greatest trace index that proves something |
| EvidenceTimeline.OrderDoesNotMatter | packages/adapter-sdk/src/evidence-review-timeline.ts:49-81 | With unique trace indices the groups do not depend on the input order |
| EvidenceTimeline.MeasuredRange | packages/adapter-sdk/src/evidence-review-timeline.ts:85-97 | The number measured, the first earliest start and the first latest end |
| EvidenceTimeline.CountFailed | packages/adapter-sdk/src/evidence-review-timeline.ts:98-111 | The number failed and the first marker that failed |
| EvidenceTimeline.CountsSplit | packages/adapter-sdk/src/evidence-review-timeline.ts:98-99 | Passed and failed add up to the group |
| EvidenceTimeline.Summarize | packages/adapter-sdk/src/evidence-review-timeline.ts:84-118 | A row tells of its markers: outcomes, the first failure, measured range and its markers |
| EvidenceTimeline.GroupRange | packages/adapter-sdk/src/evidence-review-timeline.ts:90-97 | With the earliest start and latest end: first frame <= start <= end, and end within frames and media exactly if the media reach the first frame |
| EvidenceTimeline.RowRange | packages/adapter-sdk/src/evidence-review-timeline.ts:90-115 | First frame <= start <= end, and end within frames and media exactly if the media reach the first frame |
| EvidenceTimeline.TimelineGroups | packages/adapter-sdk/src/evidence-review-timeline.ts:43-119 | The wanted groups in order of appearance, each with its markers, summed up |
| EvidenceRows.RowsAre | packages/adapter-sdk/src/evidence-review-timeline.ts:43-83 | Told of the markers alone: a row for each group that is due, none twice, each with exactly its markers, sorted |
| EvidenceRows.RowsInOrder | packages/adapter-sdk/src/evidence-review-timeline.ts:57-83 | The rows come in the order of their first markers |
| EvidenceRows.RowCounts | packages/adapter-sdk/src/evidence-review-timeline.ts:98-100 | A row counts its markers that passed, that failed, and that lack a time on a side |
| EvidenceTimeline.OneDescription | packages/adapter-sdk/src/evidence-review-timeline.ts:84-118 | The markers of a group determine its row |
| EvidenceTimeline.TimelineIgnoresOrder | packages/adapter-sdk/src/evidence-review-timeline.ts:43-119 | With unique trace indices the rows do not depend on the input order |
| PressTiming.MedianHalves | packages/recipe-runner/src/runtime/frame-metrics.ts:271-279 | The 0.5 quantile halves the sorted values and is halfway between the middle ones |
| PressTiming.EarliestStandOutAnswers | packages/adapter-rn/src/performance-capture.ts:585-639 | In whatever order the frames were recorded: the earliest stand-out frame in reach answers; the first frame in the window only if none stands out; nothing only if there is neither |
| PressTiming.TouchIs | packages/adapter-rn/src/performance-capture.ts:697-708 | The touch is the first sample in the node that handled input |
| PressTiming.NoTouchNoLatency | packages/adapter-rn/src/performance-capture.ts:596 | A press is left untimed for want of a touch exactly if no sample in the node handled input |
| PressTiming.CandidatesAre | packages/adapter-rn/src/performance-capture.ts:597-610 | The candidates are the samples without input after the touch, up to 1.5 windows after it and the end of the window, in time order |
| PressTiming.StandsOutIs | packages/adapter-rn/src/performance-capture.ts:611-624 | In the window a frame stands out with at least 4 ms of work and a whole frame budget or three times the median of the others; past it with a whole budget |
| PressTiming.OnlyReachCounts | packages/adapter-rn/src/performance-capture.ts:596-610 | Frames before the node or past 1.5 windows after the touch can be dropped |
| PressTiming.FramesOutOfReachDoNotMatter | packages/adapter-rn/src/performance-capture.ts:585-639 | Recordings that agree in reach give a press the same latency |
| PressTiming.LineAnswersIff | packages/adapter-rn/src/performance-capture.ts:667-680 | A line answers a press exactly if it is the first of its screen from the touch on and before the next press, or the end of the window |
| PressTiming.ShownLatency | packages/adapter-rn/src/performance-capture.ts:653-694 | A press with a line is timed to the latest of the line and the frames in reach, never less than line minus touch, rounded; without touch or line it is not |
| PressTiming.RoundIs | packages/adapter-rn/src/performance-capture.ts:636-637 | A latency is told in whole microseconds, to the nearest |
| PressTiming.SharedLine | packages/adapter-rn/src/performance-capture.ts:498-519 | A line that answers a press answers a later one too if and only if the later one is touched at the line's instant and its node's start, and no earlier line fits it; all node starts between fall there too |
| PressTiming.NoSharedLine | packages/adapter-rn/src/performance-capture.ts:653-708 | With touches after the node start no line answers two presses |
| PressTiming.ALineSharedAtOneInstant | packages/adapter-rn/src/performance-capture.ts:669-674 | The instant at which one does |
| PressTiming.LastEnd | packages/adapter-rn/src/performance-capture.ts:681-688 | The latest end among the line and the frames that start in reach |
| PressTiming.NodeSpans.RecordNodeEvent | packages/adapter-rn/src/performance-capture.ts:395-411 | A start opens a span, an end closes the node's last open one |
| PressTiming.EventIs | packages/adapter-rn/src/performance-capture.ts:395-411 | A start appends an open span; an end sets the end of the node's last open span and changes nothing else |
| PressTiming.SpansAreSequential | packages/adapter-rn/src/performance-capture.ts:395-411 | Recorded spans follow each other and none ends before it starts |
| FingerprintBaseline.BaselineFiles.Record | packages/adapter-rn/src/fingerprint-baseline.ts:34-61 | The method does what the protocol function says |
| FingerprintBaseline.BaselineFiles.WriteAndVerify | packages/adapter-rn/src/fingerprint-baseline.ts:47-57 | The steps inside the `try` |
| FingerprintBaseline.BaselineFiles.CheckFingerprint | packages/adapter-rn/src/fingerprint-baseline.ts:20-30 | Current exactly for that baseline, missing exactly for none or a torn one |
| FingerprintBaseline.OneWriter | packages/adapter-rn/src/fingerprint-baseline.ts:34-61 | `true` exactly if all reads match and all operations work; an exception exactly if something on the way throws; `false` leaves the marker as found or absent; never torn; no temporary file survives |
| FingerprintBaseline.BaselineLeftByDrift | packages/adapter-rn/src/fingerprint-baseline.ts:32-61 | In every run that sees a drift, returned or thrown, the value reads as current exactly if the drift came before the rename and the marker held it already, or after it and the removal failed |
| FingerprintBaseline.DriftLeavesBaseline | packages/adapter-rn/src/fingerprint-baseline.ts:32-61 | An input of each kind |
| FingerprintBaseline.RecordThenCheck | packages/adapter-rn/src/fingerprint-baseline.ts:20-61 | After `true` the check says current for that value and changed for any other |
| FingerprintBaseline.OtherWriters | packages/adapter-rn/src/fingerprint-baseline.ts:50-60 | With other writers `true` holds exactly if nobody replaced the marker after the rename |
| FingerprintBaseline.AnothersIsRemovedIff | packages/adapter-rn/src/fingerprint-baseline.ts:50-57 | Another writer's baseline is removed exactly if the last read drifted, the check saw the value to take back, another writer made the marker since the rename, and the removal works |
| FingerprintBaseline.SecondWriterLoses | packages/adapter-rn/src/fingerprint-baseline.ts:51-54 | A second writer's baseline can be removed |
| FingerprintBaseline.CurrentMeansRecorded | packages/adapter-rn/src/fingerprint-baseline.ts:20-61 | Over any calls, a value is current exactly if the last call that moved a baseline moved that one and it stayed |
| WorkspaceWatch.LocalWorkspace.Close | packages/capabilities/src/workspace-watch.ts:43-46 | Every watcher made so far is closed |
| WorkspaceWatch.LocalWorkspace.Fail | packages/capabilities/src/workspace-watch.ts:47-52 | The first failure closes and is told; later ones are not |
| WorkspaceWatch.LocalWorkspace.Add | packages/capabilities/src/workspace-watch.ts:55-80 | Two watchers for a target, or fewer when a step throws |
| WorkspaceWatch.LocalWorkspace.OnChange | packages/capabilities/src/workspace-watch.ts:57-64 | A change is told unless stopped; a changed git binding is a failure |
| WorkspaceWatch.LocalWorkspace.OnParent | packages/capabilities/src/workspace-watch.ts:68-77 | A replaced or missing target is a failure |
| WorkspaceWatch.LocalWorkspace.FinishArming | packages/capabilities/src/workspace-watch.ts:93-99 | Arming succeeds exactly if nothing failed meanwhile; otherwise everything is closed |
| WorkspaceWatch.AllOrNothing | packages/capabilities/src/workspace-watch.ts:36-100 | Once arming settles, a rejection, failure or close leaves every watcher ever made closed; a failure is told at most once |
| WorkspaceWatch.SilentOnceStopped | packages/capabilities/src/workspace-watch.ts:43-64 | After closing neither callback is called |
| WorkspaceWatch.FailureRejects | packages/capabilities/src/workspace-watch.ts:93-99 | A failure while arming can only end in rejection |
| WorkspaceWatch.StepIs | packages/capabilities/src/workspace-watch.ts:43-100 | A watch that is not stopped tells every change and every failure, and stops exactly at a failure, an arming that goes wrong, or a close |
| WorkspaceWatch.ToldIff | packages/capabilities/src/workspace-watch.ts:43-77 | In every interleaving the watch has stopped exactly if something ended it, and has told of a failure exactly if that came first |
| WorkspaceWatch.ChangesAreTold | packages/capabilities/src/workspace-watch.ts:57-64 | Until it stops every change is told once, and none after |
| WorkspaceWatch.OpenAfterFailure | packages/capabilities/src/workspace-watch.ts:55-80 | A target added after a failure is open until arming settles |
| ScreenFrame.EncodeNodeFrame | packages/capabilities/src/screen-frame.ts:17-35 | Fails exactly on sizes beyond 16 bits; the filled buffer is header, slot, payload |
| ScreenFrame.DecodeNodeFrame | packages/capabilities/src/screen-frame.ts:45-60 | Nothing exactly for buffers shorter than 7 or 7 + raw[6] |
| ScreenFrame.EncodedLayout | packages/capabilities/src/screen-frame.ts:17-35 | The layout: magic byte, flag, width and height high byte first, slot length modulo 256, slot, payload |
| ScreenFrame.DecodedLayout | packages/capabilities/src/screen-frame.ts:45-60 | What is read of a buffer: nothing if it is too short for its slot, otherwise each field from its place |
| ScreenFrame.DecodesTo | packages/capabilities/src/screen-frame.ts:17-60 | A long slot is cut to its length modulo 256, and the rest goes before the payload |
| ScreenFrame.DecodeEncode | packages/capabilities/src/screen-frame.ts:17-60 | Decoding undoes encoding exactly for slots of at most 255 bytes |
| ScreenFrame.EncodeDecode | packages/capabilities/src/screen-frame.ts:17-60 | Encoding undoes decoding exactly for the magic byte and flags 0 or 1 |

## Left out

- SurfaceStitch.SampledSeamDifference: surfaces at least two pixels wide; on a narrower one the source samples a column outside the surface, at worst past the end of the image.
- SurfaceStitch.ChooseSurfaceSeam: surfaces at least two pixels wide, and revealed rows of at most the height minus 4, as a measured move always leaves them.
- SurfaceStitch.StitchSurfacePages: works on pages already read; reading and writing PNG files is not part of this model.
- SurfaceMeasure.SampledSurfaceDifference: surfaces at least two pixels wide and pages of one size; elsewhere the source can read outside the image and sort values that are not numbers.
- SurfaceMeasure.MeasureRevealedRows: as for the sampled differences; percentages and means are exact fractions, so ties that only rounding of doubles decides are not captured.
- SurfaceCapture.CaptureSurface: surfaces at least two pixels wide; pages of different sizes compare as an arbitrary number or failure; scrolling back to the top, restoring the position and errors of the device client are not part of this model.
- GfxinfoCapture.ParseFrameStats: works on lines already split into columns and numbers.
- GfxinfoRuns.CompleteMeansNothingLost: rows do not change once rendered, and a poll sees one state of the rings; polls never overlap, as the source ensures by returning the poll under way.
- FsWatch.QuietMeansCurrent: a read sees the file as it was at one moment between its start and its end.
- H264Splitter.Emit: frames reach the handler after the grouping loop of a drain and not inside it; their order is the same.
- VideoRecorder.AndroidRecording.StopOwnedRecorders: one clock reading for each look at the device, one process for each segment; the final SIGTERM to the host clients reaches the runs as the exit of a segment.
- VideoRecorderRuns.WaitDecides: a host client that exits with code 0 is taken to mean that its process on the device has finished; with any other code, or none, the process may run on.
- VideoRecorder.AndroidRecording.Abandon: the local files go in one assignment and not one by one; which of them are left when a removal throws is the same.
- VideoRecorder.AndroidRecording.Collect: the contents of the timing report are not modelled; `ready` and the loop that waits for a segment's first bytes are events of the runs.
- EvidenceTimeline.TimelineGroups: the labels and summary texts of a row are not modelled.
- PressTiming.EarliestStandOutAnswers: the default frame budget is the exact fraction 1000/60.
- FingerprintBaseline.OneWriter: an unreadable marker (other than a missing one) is not modelled.
- The marker lines of the logcat stream, clock synchronisation, frame summaries and trace events of the gfxinfo backend: input and output of text and time.
- Budgets, targets, baselines and reports of `packages/adapter-rn/src/performance-capture.ts`: arithmetic on the summaries.
- Claims, judgments, gates, comparisons and markdown of `packages/adapter-sdk/src/evidence-review-model.ts`: plumbing of data.
- Discovery of git metadata and of symbolic links in `packages/capabilities/src/workspace-watch.ts`: its outcome is an event.
- UTF-8: texts and slot ids are numbers or bytes.
