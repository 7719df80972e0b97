# Line distribution trainer, modelled in Dafny

The Python application labels who sings which part of a song, and then
replays the song as a "line distribution" video. In that video each group
member's image moves up or down as their running share of sung chunks
changes. This project models the logic behind that:

- the song is cut into 40 ms chunks;
- labels `(member, startChunk, endChunk)` are built from start and end
  markers, edited, removed and merged into the saved file;
- every member gets a timeline that counts the chunks they have sung;
- at every chunk `checkAndSwap` reorders the members and queues the slide
  animations, and `updateAnimations` interpolates and writes each image's Y
  position. `initializePositions` replays this over the whole song;
- the progress bar maps time to a section and a handle position, and wraps
  at the edges. The navigation arrows change the handle's section;
- track images are chroma-keyed to make a "clear" image, and the canvas
  picks the image that shows each member;
- the audio pre-processing binarises frame energies and finds the short
  "music residues" the user may clear;
- the reinforcement-learning agent is a stub that keeps a list of singers
  and a score.

Each module follows one part of the program:

| module | part of the program |
|---|---|
| `Common` | results, errors, Python indexing, chunk count, `list.remove`, `list.index` |
| `Sorting` | Python's stable `sorted` |
| `Timeline` | `TrackItem.initializeTimeline` |
| `Animation` | `TrackItem.animatePosition` and `TrackItem.updateAnimations` |
| `Reorder` | `TrackItem.checkAndSwap` |
| `Replay` | `initializePositions` |
| `Labels` | marker and label editing: `removeLabelFromJSON`, the merge in `saveLabels`, `updateTimeMarkersDict`, `moveMarker`, `getLabels` |
| `Sections` | progress bar conversions, `updateProgressBarHandle`, `updateDisplayedTime` |
| `Navigation` | `navigation_arrows.py` |
| `Appearance` | scale clamp, `chromaKeyImage`, the dark/clear images, `switchImage`, `updateCanvasForCurrentPosition` |
| `Residues` | `binarize`, `findMusicResidues`, `userResolveResidues` |
| `Agent` | `rl_agent.py` |

Python exceptions that the modelled code can raise (`IndexError`,
`ValueError`, `KeyError`) are values of the `Error` datatype in `Common`.
An operation that may raise one returns a `Result`.

## Model

| member | source | states |
|---|---|---|
| Common.PyIndex | audio_tester.py:530 | A Python index `i` into a list of length `n` is valid exactly when `-n <= i < n`. It then names slot `i`, or `i + n` when `i` is negative. |
| Common.ChunkCount | audio_tester.py:69 | Cutting `d` ms of audio into 40 ms pieces gives the least `n` with `n * 40 >= d`; the last piece may be short. |
| Common.RemoveFirst | audio_tester.py:392-393 | Removing a value that is absent leaves the list unchanged, as the guarded `if chunk in points: points.remove(chunk)` of a marker move does. The unguarded `remove` in updateAnimations (TrackItem.py:99) would raise ValueError there; `Animation.UpdateFrom` raises it itself before calling this. |
| Common.RemoveFirstCount | TrackItem.py:99 | Removing a present value takes exactly one copy of it out of the multiset of elements. |
| Common.RemoveFirstSkips | TrackItem.py:99 | The copy removed is the first one: removing `x` from `p + [x] + q`, with `x` not in `p`, gives `p + q`. |
| Common.IndexOf | TrackItem.py:129 | `list.index` returns the position of the first occurrence of the value. |
| Sorting.SortByPermutes | audio_tester.py:1303-1304 | Sorting by a key gives a sequence ordered by that key that is a permutation of the input. |
| Sorting.SortByIsStableSort | audio_tester.py:1624 | The sort is stable: for every key value, the elements with that key keep their input order. |
| Sorting.SortBySorted | audio_tester.py:1303-1304 | Sorting an already sorted sequence returns it unchanged. |
| Timeline.MemberRangesContents | TrackItem.py:191-194 | A range is collected exactly when some label of the member covers that start and end. |
| Timeline.MemberRangesAppend | TrackItem.py:191-194 | Ranges are collected in label-list order: the ranges of `a + b` are those of `a` followed by those of `b`. |
| Timeline.WriteFrom | TrackItem.py:195-197 | Writing a running count over the chunks `start..end` raises IndexError exactly when the range is non-empty and leaves Python's index bounds. From a non-negative start, chunk `start + i` then receives `count + i + 1`, and every other chunk keeps its value. |
| Timeline.FirstPass | TrackItem.py:191-197 | The first pass succeeds exactly when every non-empty range lies within Python's index bounds of the timeline. The timeline's length is kept. |
| Timeline.InitializeTimeline | TrackItem.py:186-213 | Builds a timeline of one entry per chunk. It fails exactly when one of the member's non-empty ranges leaves the timeline's index bounds. The track's `lastUpdateChunk` before the call is an argument: 0 from the constructor (TrackItem.py:37-44), the previous value when saving labels re-runs the method (audio_tester.py:877). |
| Timeline.FirstPassCounts | TrackItem.py:191-197 | For disjoint, ascending ranges inside the song, the first pass writes at each covered chunk the number of covered chunks up to and including it. Uncovered chunks keep their value. |
| Timeline.FillCounts | TrackItem.py:199-213 | The fill loop carries the last running count across the gaps. Every chunk ends up holding the number of sung chunks up to it, and `lastUpdateChunk` is the end of the last range. |
| Timeline.TimelineIsRunningCount | TrackItem.py:186-213 | For well-formed ranges, each chunk of the finished timeline holds the number of chunks the member has sung up to and including it. `lastUpdateChunk` is the member's last sung chunk, or keeps its value from before the call when the member has no labels. |
| Timeline.InitializeTimelineKeepsLast | TrackItem.py:199-209 | When the member has no labels, or its first range ends before it starts, no range ever closes, so `lastUpdateChunk` keeps the value it had before the call. |
| Timeline.TimelineSteps | TrackItem.py:199-213 | Each timeline entry equals the previous one plus 1 when the member sings at that chunk, and plus 0 otherwise. |
| Timeline.TimelineMonotone | TrackItem.py:199-213 | The timeline never decreases. |
| Animation.AnimatePosition | TrackItem.py:84-90 | Queuing an animation appends exactly that animation and keeps the earlier ones in order. |
| Animation.Interpolate | TrackItem.py:102-114 | An animation that applies at chunk `c` yields its start Y at its start chunk and its end Y once finished. In between, the Y stays between the two. |
| Animation.ProgressBounds | TrackItem.py:102-103 | An animation's progress lies in [0, 1]: 0 at its start chunk and 1 from its end chunk on. |
| Animation.LerpBounds | TrackItem.py:105 | Linear interpolation with a fraction in [0, 1] stays between its two end values. |
| Animation.InterpolateIsLinear | TrackItem.py:102-114 | The Y written is the linear interpolation between start Y and end Y at the animation's progress. |
| Animation.ProgressMonotone | TrackItem.py:102-103 | Progress never decreases as the chunk advances. |
| Animation.InterpolateMonotone | TrackItem.py:102-114 | The interpolated Y moves monotonically from start Y towards end Y as the chunk advances. |
| Animation.ProgressStrictlyMonotone | TrackItem.py:102-103 | Up to the end chunk, progress grows strictly with the chunk. |
| Animation.InterpolateStrictlyMonotone | TrackItem.py:102-105 | Between the start and end chunks of a slide whose start and end Y differ, each later chunk is strictly closer to the end Y. |
| Animation.UpdateAnimations | TrackItem.py:92-114 | Succeeds exactly when no queued animation applies at `c`, or `c` is a valid index into the position timeline. Only the started animations with an empty or negative span are dropped; finished ones stay queued. Slot `c` holds the interpolated Y of the last applying animation, and the timeline's length is kept. |
| Animation.LastApplying | TrackItem.py:93-109 | There is no kept Y exactly when no queued animation applies at `c`. Otherwise the kept Y comes from an animation that applies at `c` and has no applying animation after it in the queue. |
| Animation.KeptMembers | TrackItem.py:93-100 | After an update, an animation is still queued exactly when it was queued before and is not a started animation with an empty or negative span. |
| Animation.UpdateFromSpec | TrackItem.py:93-114 | The source's loop, which removes from the live list while it iterates over a snapshot, computes the kept list and the last write stated by UpdateAnimations. |
| Animation.LiveDrop | TrackItem.py:98-99 | When the loop drops an animation, `list.remove` on the live list removes exactly the entry the loop is visiting, even when an equal entry appears later. |
| Reorder.BaseLength | TrackItem.py:142 | The length of a slide is 12 chunks when the overtaken member's look-ahead count is positive, and 10 chunks otherwise. |
| Reorder.LookAheadValues | TrackItem.py:139-141 | There is one look-ahead value per rank: that member's count four chunks after the current chunk. |
| Reorder.ScanNext | TrackItem.py:139-157 | Definition of one loop iteration, stated case by case; the properties of the whole scan are in ScanOfOvertakes, ScanOfEnds and CheckAndSwapOwn. A step that overtakes rank `i` makes `i` the ending row. It also queues rank `i` to slide down, starting two chunks later per member already passed and lasting its base length. A step that does not overtake keeps the ending row and the queue. |
| Reorder.ScanRanks | TrackItem.py:139-154 | Every member the scan queues is the member at the queued row, and that row is at or above the row the scan started from. |
| Reorder.ScanAboveBehind | TrackItem.py:148 | When the member's count exceeds none of the higher look-ahead values, the scan passes nobody, since the second overtaking test needs two members already passed. |
| Reorder.ScanAboveAhead | TrackItem.py:139-157 | When the member's count exceeds every higher look-ahead value, the scan passes every higher rank and ends at row 0 with rank 0's base length. |
| Reorder.ScanAheadQueues | TrackItem.py:150-169 | In that case the member at rank `j` receives exactly one slide, from row `j` to row `j + 1`. It starts two chunks later for each rank passed before it and lasts its own base length. |
| Reorder.HeightOffsetFor | TrackItem.py:122-127 | The row height is known exactly when the track already has one or there are at least two members. With fewer than two members and none known, it raises IndexError. A known row height is kept. Otherwise it is the Y distance between ranks 0 and 1, with rank 0's Y as offset, so rows 0 and 1 fall exactly on those two images. |
| Reorder.NewOrder | TrackItem.py:171-173 | Moving the member up by the number of members passed permutes the order and keeps it free of duplicates. Passing nobody leaves the order unchanged. |
| Reorder.OwnTrack | TrackItem.py:159-177 | Definition of the moving member's own update, stated case by case; CheckAndSwapOwn states it in terms of the layout. The moving member keeps its counts and records its row height and its current screen Y at chunk `c`. When it passed someone, it also gains one slide from its old row to its ending row. The slide lasts the base length left by the loop's last iteration (rank 0) plus two chunks per extra member passed. |
| Reorder.ScanOf | TrackItem.py:129-157 | The scan raises IndexError exactly when the member is not at the top and the look-ahead chunk lies past the song. Otherwise it passes at most as many members as rank above it. |
| Reorder.CheckAndSwap | TrackItem.py:116-177 | `checkAndSwap` succeeds exactly when the row height is available, the chunk is in the song and the look-ahead chunk exists whenever it is needed. The new order is then a duplicate-free permutation of the old one, and the set of members is unchanged. |
| Reorder.SpliceShape | TrackItem.py:171-173 | Popping rank `from` and inserting at rank `to` keeps the length and puts the member at `to`. The other members stay in their relative order. |
| Reorder.SpliceMultiset | TrackItem.py:171-173 | The splice is a permutation of the order. |
| Reorder.SpliceDistinct | TrackItem.py:171-173 | The splice keeps the members distinct. |
| Reorder.ScanMembers | TrackItem.py:139-157 | Every member queued is a higher-ranked member named by its row, and the rows queued strictly descend. |
| Reorder.ScanOfOvertakes | TrackItem.py:139-157 | For any scan, the `k`-th member overtaken passed the overtake test with `k` members already overtaken. Its slide starts `2 * k` chunks after the current chunk and lasts the base length of its own look-ahead value. |
| Reorder.CheckAndSwapOrder | TrackItem.py:171-173 | After passing `p` members, the member sits at rank `cki - p`. Taking it out of the new order leaves the old order with it taken out. |
| Reorder.NewOrderShape | TrackItem.py:171-172 | Popping the member at rank `cki` and inserting it at `cki - p` puts it at `cki - p`, and every other member keeps its relative order. |
| Reorder.CheckAndSwapOwn | TrackItem.py:143-164 | A member that passes nobody gains no slide. One that passes `p > 0` members gains one slide, from its own row to the row of the last member passed, starting at `c`. The slide lasts the base length read from rank 0's look-ahead value plus two chunks per further member passed. |
| Reorder.ScanOfEnds | TrackItem.py:139-157 | A scan that passes anyone ends on the row of the last member passed. It leaves the base length read from rank 0's look-ahead value. |
| Reorder.ScanAboveEnds | TrackItem.py:139-157 | The whole loop leaves rank 0's base length. When it passed anyone, its ending row is the row of the last member passed. |
| Reorder.CheckAndSwapOthers | TrackItem.py:166-169 | Every other member's queue gains exactly the slides the scan recorded for it. Its counts, positions and row height are kept. |
| Reorder.CheckAndSwapFrame | TrackItem.py:116-177 | The layout stays valid and every member keeps its counts. Only the moving member's position at chunk `c` and its row height may change. |
| Reorder.LowerRanksUntouched | TrackItem.py:139 | Members ranked below the moving member keep their whole track. |
| Reorder.ScanOfBehind | TrackItem.py:148 | A member whose count is at most every higher look-ahead value passes nobody. |
| Reorder.ScanOfAhead | TrackItem.py:139-157 | A member ahead of every higher look-ahead value passes all higher ranks. It ends at row 0 with the base length of rank 0. |
| Reorder.ScanOfAheadQueues | TrackItem.py:150-169 | In that case the member at rank `j` receives exactly one slide, one row down, starting `2 * (rank - 1 - j)` chunks after `c`. |
| Reorder.StaysWhenBehind | TrackItem.py:116-177 | A member not ahead of any higher rank keeps the order, and no queue changes. |
| Reorder.LeadsWhenAhead | TrackItem.py:116-177 | A member ahead of every higher rank moves to rank 0, and the others keep their relative order. |
| Reorder.NewOrderToTop | TrackItem.py:171-173 | Passing all higher ranks moves the member to the front. |
| Reorder.PushedDownWhenAhead | TrackItem.py:159-169 | In that case the member at rank `j` gains exactly one slide from row `j` to row `j + 1`. It starts `2 * (rank - 1 - j)` chunks after the current chunk and lasts its own base length. |
| Replay.TailStart | audio_tester.py:526 | The chunks simulated are those before `n - 4`, and there are none when the song has fewer than four chunks. |
| Replay.CheckAndSwapShape | audio_tester.py:527 | A chunk's `checkAndSwap` keeps the layout's shape and changes no position outside the current chunk. |
| Replay.MemberStep | audio_tester.py:527-528 | One member's step fails exactly when its height offset is unknown and fewer than two members exist. It only ever changes positions at the current chunk. |
| Replay.SimChunk | audio_tester.py:525-528 | With two or more members, a simulated chunk succeeds. It keeps the shape and changes positions only at that chunk. |
| Replay.SimulateFrom | audio_tester.py:524-528 | With two or more members, the simulated run succeeds and changes positions only in the simulated chunks. |
| Replay.Tail | audio_tester.py:529-530 | The tail copy fails exactly when the source slot is not a valid Python index and there is a tail chunk and a member. |
| Replay.Replay | audio_tester.py:523-530 | With two or more members and a valid source slot, the replay succeeds and keeps every track's shape. |
| Replay.ReplayTail | audio_tester.py:529-530 | After a replay, a source slot before the tail is held through every tail chunk. A source slot inside the tail shows its value from before the replay. |
| Replay.InitializePositionsAsWritten | audio_tester.py:523-530 | The loop as written. The tail shows slot `n - 4` as it was before the replay. |
| Replay.InitializePositions | audio_tester.py:523-530 | The corrected loop, which copies the last simulated slot `n - 5`, succeeds with two or more members. |
| Replay.InitializePositionsHoldsLast | audio_tester.py:529-530 | In the corrected loop, every tail chunk holds the position of the last simulated chunk. |
| Replay.InitializePositionsAsWrittenOneChunk | audio_tester.py:530 | A one-chunk song raises IndexError, because slot `1 - 4` does not exist. |
| Replay.SingleMemberFails | TrackItem.py:122-127 | A group of one member raises IndexError at the first simulated chunk. |
| Replay.AsWrittenTailIsInitialValue | audio_tester.py:530 | For freshly built tracks, every tail chunk of the loop as written leaves each image at Y 0.0. |
| Labels.RemoveLabels | audio_tester.py:353-357 | No kept label has the removed marker's chunk as its start (for a start marker) or end (for an end marker). |
| Labels.RemoveLabelsCounts | audio_tester.py:353-357 | Each label occurs as often as before, unless the removed marker marks it, and then it no longer occurs. |
| Labels.RemoveLabelsIdempotent | audio_tester.py:353-357 | Removing the same marker twice is the same as removing it once. |
| Labels.NewLabels | audio_tester.py:1620-1621 | No new label is already in the saved file. |
| Labels.NewLabelsCounts | audio_tester.py:1620-1621 | A label already saved occurs zero times among the new ones. Any other label occurs as often as in the current labels. |
| Labels.NewLabelsNone | audio_tester.py:1620-1621 | When every current label is already saved, there are no new labels. |
| Labels.MergeLabels | audio_tester.py:1616-1624 | The merged file is sorted by start chunk and holds the saved labels plus the new ones. Among labels with the same start, the saved ones come first, in their own order. |
| Labels.MergeLabelsMembers | audio_tester.py:1616-1624 | A label is in the merged file exactly when it is saved or current. A saved label keeps its multiplicity. |
| Labels.MergeLabelsIdempotent | audio_tester.py:1616-1624 | Saving the same labels a second time leaves the file unchanged. |
| Labels.AddMarkersSpec | audio_tester.py:574-586 | After adding markers, section `s` holds its previous markers followed by the added markers whose chunk falls in that section, in order. |
| Labels.TimeMarkersSpec | audio_tester.py:572-586 | Section `s` has an entry exactly when a start or end marker falls in it. The entry lists the start markers and then the end markers of that section. |
| Labels.InSectionBelongs | audio_tester.py:575-576 | Every marker listed for section `s` has a chunk `c` with `s * chunksInView <= c < (s + 1) * chunksInView`. |
| Labels.Relocate | audio_tester.py:388-417 | Moving a marker from `from` to `to` draws it at `to`. If `from` was drawn it is no longer drawn; otherwise `to` is also appended to the points. |
| Labels.RelocateCounts | audio_tester.py:393-397 | When `from` is a point, the move replaces one copy of `from` by `to`. |
| Labels.RelocateBack | audio_tester.py:388-417 | Moving a marker to a free chunk and back restores the drawn markers and the multiset of points. |
| Labels.UpdateSelectedLabel | audio_tester.py:419-429 | If the selected label is in the list, its first occurrence is replaced by the label with the moved end. Otherwise nothing changes. |
| Labels.LabelsAfterMove | audio_tester.py:419-429 | Without a selected label the labels are unchanged. With one, the label is retargeted in place and stays selected. |
| Labels.LabelsAfterMoveBack | audio_tester.py:419-429 | Retargeting the selected label to a new chunk and then back restores the labels and the selection, provided the retargeted label was not already present. |
| Labels.MoveTo | audio_tester.py:388-431 | Moving a marker relocates only the markers of its own kind and selects the moved marker. It retargets the selected label. |
| Labels.MoveMarker | audio_tester.py:364-431 | With no selected marker, or a target chunk outside the song, nothing changes. Otherwise the marker moves by `direction`. |
| Labels.MoveMarkerBack | audio_tester.py:364-431 | Moving a marker by `d` and then by `-d` restores the selection, the labels, the drawn markers and the multiset of points. |
| Labels.RelocateConsistent | audio_tester.py:388-417 | A move to a free chunk keeps the drawn markers and the point list in agreement. |
| Labels.FreeEndFrom | audio_tester.py:1310-1315 | Finds the first unused end at or after `i` that lies after the start. Every end skipped is used or not after the start. |
| Labels.MemberOf | audio_tester.py:1320-1330 | The first label covering exactly that start and end decides: its member when non-empty, else None. With no such label the result is None. A member found is non-empty and names such a label. |
| Labels.Picks | audio_tester.py:1308-1336 | There is at most one pick per start. Each pick pairs a start with an end index that lies after it and is not yet used, and no end index is picked twice. |
| Labels.PicksSplit | audio_tester.py:1308-1336 | The loop over `a + b` is the loop over `a`, then the loop over `b` with the ends that `a` used marked as used. |
| Labels.PicksAt | audio_tester.py:1308-1336 | Start `i` takes the first end after it that the earlier starts left unused. It is dropped exactly when there is none, and its pick comes next in the result. |
| Labels.Pairings | audio_tester.py:1317-1330 | There is one pairing per pick. It carries the start, the picked end, and the member that the saved labels give for those chunks. |
| Labels.GetLabels | audio_tester.py:1299-1337 | There is at most one label per start marker. Each label ends after it starts, pairs a start with a sorted end, and carries the member the labels give for those chunks. |
| Labels.GetLabelsFromMarkers | audio_tester.py:1299-1337 | Every returned start is a start marker and every returned end is an end marker. |
| Labels.GetLabelsOrdered | audio_tester.py:1303-1308 | The labels come out in ascending order of start. |
| Labels.PicksSorted | audio_tester.py:1303-1308 | Sorted starts give picks in ascending order of start. |
| Labels.PicksFromStarts | audio_tester.py:1308 | Every picked start is one of the starts. |
| Labels.Starts | audio_tester.py:1303 | The start chunks of the labels, in order. |
| Labels.Ends | audio_tester.py:1304 | The end chunks of the labels, in order. |
| Labels.GetLabelsRecoversLabels | audio_tester.py:1299-1337 | For labels that do not overlap and are ordered, with non-empty members, rebuilding from their markers returns exactly those labels. |
| Labels.PicksSeparated | audio_tester.py:1308-1332 | For such labels, the `k`-th start picks the `k`-th end. |
| Labels.MemberOfSeparated | audio_tester.py:1320-1330 | For such labels, the lookup of a label's own chunks finds its member. |
| Sections.VisibleDuration | audio_tester.py:624 | The span of one section is positive. |
| Sections.TimeToProgressValue | audio_tester.py:628-633 | The bar value lies in `[0, chunksInView)`. The time falls in the chunk that the section and the value name. |
| Sections.TimeRoundTrip | audio_tester.py:622-633 | Converting a time to a bar value and back gives the start of the chunk that contains the time. |
| Sections.ValueRoundTrip | audio_tester.py:622-633 | Converting a bar value to a time and back gives the same section and value. |
| Sections.FMod | audio_tester.py:643 | Python's float `%` with a positive divisor lies in `[0, divisor)`. |
| Sections.HandleX | audio_tester.py:640-643 | The handle's x position lies in `[0, width)`. |
| Sections.Wrap | audio_tester.py:643 | Wrapping a ratio onto the bar gives an x in `[0, width)`. |
| Sections.WrapAt | audio_tester.py:643 | A ratio one section ahead wraps to the same x as its offset. |
| Sections.NoWrapAt | audio_tester.py:643 | A ratio in `[0, 1)` maps to that fraction of the width. |
| Sections.UpdateHandle | audio_tester.py:636-675 | A move records its x in `[0, width]` as the previous x, in the current section. The section changes by at most one. Without a wrap, the handle's section is kept. |
| Sections.ForwardWrapTracksSection | audio_tester.py:646-656 | When playback crosses into the next section within the song, a forward wrap moves the handle to that section, matching the section computed from the time. |
| Sections.SteadyPlayback | audio_tester.py:640-643 | Away from the edges, within the section, the handle's x is the time's fraction of the section times the width. |
| Sections.UpdateHandleBackward | audio_tester.py:659-675 | A backward wrap out of section 1 or later steps both section indices back by one. The handle jumps to the right end of the bar, which becomes the previous x. |
| Sections.UpdateHandleSteady | audio_tester.py:672-675 | With the previous x away from both edge zones, no wrap happens. The handle moves to the new x in the same section, and x becomes the previous x. |
| Sections.BackwardWrapAtStart | audio_tester.py:659-664 | A backward wrap in section 0 leaves section 0, sets the handle's section to -1 and does not move the handle. |
| Sections.ForwardWrapClamps | audio_tester.py:649-652 | A forward wrap past the song's end sets the section to `chunks // chunksInView - 1` but leaves the handle's section one ahead. The handle is not moved and the previous x is kept. |
| Sections.WrapExample | audio_tester.py:636-675 | From x 780 of 800 at 4100 ms with 100 chunks in view, the handle wraps to x 20 in section 1. |
| Sections.RatioShift | audio_tester.py:640-642 | Measured against the previous section, the ratio is one more. |
| Sections.DisplayedTime | audio_tester.py:1355-1359 | Minutes, seconds and milliseconds add back up to the time, with seconds below 60 and milliseconds below 1000. |
| Sections.DisplayedTimeUnique | audio_tester.py:1355-1359 | Displaying a time built from a clock reading gives back that clock reading. |
| Navigation.BarOrigin | navigation_arrows.py:17-18 | A negative window coordinate is replaced by the fallback 159 or 640. |
| Navigation.CreateArrows | navigation_arrows.py:15-41 | The left tip lies 10 px left of the bar and the right tip 10 px right of it, both at the bar's vertical centre. |
| Navigation.ArrowsMirror | navigation_arrows.py:24-39 | The two arrows mirror each other about the bar's centre. Each is 20 px deep and 20 px tall and points away from the bar. |
| Navigation.NavigateLeft | navigation_arrows.py:47-52 | Moves the handle one section left when it is past section 0, and otherwise changes nothing. |
| Navigation.NavigateLeftStaysNonNegative | navigation_arrows.py:47-52 | Any number of left clicks stops at section 0. |
| Navigation.TotalSections | navigation_arrows.py:56 | The number of whole sections that fit in the song. |
| Navigation.NavigateRight | navigation_arrows.py:54-60 | Moves the handle one section right when the playback section is before the last, and otherwise changes nothing. |
| Navigation.NavigateRightPassesLastSection | navigation_arrows.py:57 | Because the guard reads the playback section, repeated right clicks move the handle past the last section. |
| Navigation.LeftUndoesRight | navigation_arrows.py:47-60 | A left click undoes a right click that moved the handle. |
| Appearance.ClampScale | TrackItem.py:15 | The scale is clamped to `[0, 1000]` and values inside are kept. |
| Appearance.ClampScaleMonotone | TrackItem.py:229 | Clamping keeps the order of scales. |
| Appearance.Strip | TrackItem.py:70 | Stripping removes surrounding whitespace and keeps a string that has none. |
| Appearance.ParseHex | TrackItem.py:70 | `int(s, 16)` fails only with ValueError. |
| Appearance.HexPairRoundTrip | TrackItem.py:70 | Parsing the two hex digits of a channel value in `[0, 256)` gives that value back. |
| Appearance.LStrip | TrackItem.py:70 | Removes the leading run of `#`. |
| Appearance.ParseKey | TrackItem.py:69-70 | Parsing a colour fails only with ValueError. |
| Appearance.KeyRoundTrip | TrackItem.py:69-70 | Formatting a colour as `#rrggbb` and parsing it gives the colour back, except the substituted colour, which gives yellow. |
| Appearance.SubstituteKeyParses | TrackItem.py:69 | The substituted colour parses as yellow. |
| Appearance.ShortKeyFails | TrackItem.py:70 | A three-digit colour raises ValueError. |
| Appearance.KeyOut | TrackItem.py:75-79 | Each pixel matching the key becomes transparent, and the others are kept. |
| Appearance.ChromaKey | TrackItem.py:67-82 | Succeeds exactly when the colour parses. It then keys out that colour. |
| Appearance.KeyOutIdempotent | TrackItem.py:75-79 | Keying out twice is keying out once. |
| Appearance.KeyOutExactly | TrackItem.py:75-79 | A pixel is transparent afterwards exactly when it matched or already was. Only matching pixels change. |
| Appearance.NewTrackImages | TrackItem.py:40-48 | Fails with KeyError without a dark image. Otherwise it adds the keyed-out clear image, keeps the others and shows dark. |
| Appearance.NewTrackImagesHasFallbacks | TrackItem.py:46-47 | A built track has both a clear and a dark image. |
| Appearance.SwitchImage | TrackItem.py:240-249 | Switches to a key exactly when it exists, and otherwise raises ValueError. |
| Appearance.SingingMembersSpec | audio_tester.py:1194-1198 | A member is singing exactly when one of their labels covers the chunk. |
| Appearance.UpdateImages | audio_tester.py:1201-1209 | Succeeds exactly when every chosen image exists. Each track then shows its chosen image. |
| Appearance.UpdateCanvas | audio_tester.py:1192-1211 | Keeps one track per member. |
| Appearance.UpdateCanvasShows | audio_tester.py:1201-1209 | A track shows clear past its last sung chunk. Before that it shows light exactly when its member sings, and dark otherwise. |
| Appearance.UpdateCanvasFailsOnlyOnLight | audio_tester.py:1201-1209 | With clear and dark images present, the canvas fails exactly when a singing member has no light image. |
| Residues.Binarize | audio_processing.py:33-37 | One bit per frame: 1 exactly when the frame's energy exceeds the threshold. |
| Residues.StartsFromSpec | audio_processing.py:43-45 | The residue starts found are, in ascending order, exactly the indices in range whose run of `t` ones is bounded by zeros. |
| Residues.FindMusicResiduesAsWritten | audio_processing.py:41-46 | The function as written reports, for each start `i`, the end `i + t + i`. |
| Residues.FindMusicResidues | audio_processing.py:41-46 | The corrected function reports each start with the end `i + t - 1`. |
| Residues.FindMusicResiduesSpec | audio_processing.py:41-46 | Each residue is a run of exactly `t` ones with a zero on each side. Every such run in range is reported, in ascending order. |
| Residues.ZeroRange | audio_processing.py:57-59 | Zeroing keeps the array's length. |
| Residues.ZeroRangeInside | audio_processing.py:57-59 | Zeroing a range inside the array sets exactly that range to 0. |
| Residues.ZeroRangePastEnd | audio_processing.py:57-59 | Zeroing a range that runs past the end raises IndexError. |
| Residues.ResolveResidues | audio_processing.py:48-60 | Resolving keeps the array's length. |
| Residues.ResolveInside | audio_processing.py:48-60 | With residues inside the array, a frame ends at 0 exactly when a confirmed residue covers it, and keeps its bit otherwise. |
| Residues.ResolveFoundResidues | audio_processing.py:41-60 | Resolving the residues the corrected function finds always succeeds and clears exactly the confirmed runs. |
| Residues.AsWrittenEndOverruns | audio_processing.py:45 | On `[0,0,0,1,1,1,1,1,0,0,0]` the function as written reports `(3, 11)`, and confirming it raises IndexError. The corrected function reports `(3, 7)`. |
| Agent.New | rl_agent.py:4-6 | A new agent has no points and no singers. |
| Agent.AddSinger | rl_agent.py:8-10 | Adds a singer at the end only when it is absent. The points are kept. |
| Agent.Reward | rl_agent.py:17-21 | A correct guess adds a point and a wrong one takes a point away. |
| Agent.GetPoints | rl_agent.py:23-24 | The score reported is the points the rewards have accumulated; reading it changes nothing. |
| Agent.PointsCountGuesses | rl_agent.py:17-24 | After a run of guesses, the points are the correct guesses minus the wrong ones. |
| Agent.AddAllDistinct | rl_agent.py:8-10 | Adding singers never creates a duplicate. |
| Agent.AddAllKeepsOrder | rl_agent.py:8-10 | Adding singers keeps the earlier singers as a prefix. |
| Agent.AddAllMembers | rl_agent.py:8-10 | After adding, a singer is known exactly when it was known or added. |
| Agent.AddSingerIdempotent | rl_agent.py:8-10 | Adding a singer twice is adding it once. |

## Left out

- Drawing: the Tk canvas, image resizing, the timer canvas, fonts, colours of the UI and the video export are left out, because they only render state the model already computes.
- Audio and the clock: pygame playback, `pydub` loading, frame energy, `calibrateThreshold` and the playback timer are left out. Frame energies, durations and the current time are parameters.
- Files: loading and writing JSON label files are left out. The merge in `saveLabels` is modelled on the lists that are read and written.
- Dialogs: `userResolveResidues` asks a yes/no question per residue. The answers are a parameter.
- The zoom manager is left out; `chunksInView` is a positive parameter.
- The canvas's screen Y of each image, which `checkAndSwap` reads to find the row height, is a parameter map.
- `RLSSingerRecogAgent.guess` is left out because it draws a random action.
- `image.convert("RGBA")` is left out. Images are sequences of RGBA pixels.
- Appearance.ParseHex: covers ASCII hex digits and signs only. It leaves out the underscores, the `0x` prefix and the non-ASCII digits that Python's `int` also accepts, which no colour in the program uses.
- Appearance.Strip: whitespace is the characters below U+0100 that `str.isspace` accepts. The Unicode spaces above U+00FF are left out.
- Sections.HandleX: computed in exact real arithmetic rather than IEEE doubles, so rounding at the section edges is not modelled.
- Animation.Interpolate: Y positions, progress and the linear interpolation are exact reals rather than IEEE doubles. The `progress == 1.0` lock at TrackItem.py:112-113 exists because of float rounding, and the model does not reproduce that rounding.
- Animation.InterpolateStrictlyMonotone: strict monotonicity is proved over the reals. In doubles it can fail when `endY - startY` is tiny compared with `startY`, because two successive values can round to the same double.
- Reorder.RowY: row heights and the height offset are exact reals rather than IEEE doubles, so rounding in the row arithmetic is not modelled.
- Reorder.HeightOffsetFor: the offset is an exact real difference of two screen Y values, with no double rounding.
- Appearance.UpdateImages: partial effects before an exception are not modelled. When `switchImage` raises ValueError for one track, the source has already switched the tracks before it. The model returns only the error.
- Timeline.InitializeTimeline: partial effects before an exception are not modelled. `initializeTimeline` rebinds `self.timeline` (TrackItem.py:187) and then writes it in place (TrackItem.py:197). When a range leaves the list, the IndexError leaves the new, partly written timeline behind. The re-run after a label is saved (audio_tester.py:877) catches nothing, so later reads see that state. The model returns only the error.
- Animation.UpdateAnimations: partial effects before an exception are not modelled. The source keeps the removals from the animation list (TrackItem.py:99) and the writes to the position timeline (TrackItem.py:109) made before a later entry raises. The model returns only the error.
- Appearance.ChromaKey: the member colour is assumed present. `getMemberColor` (audio_tester.py:781-785) returns `None` for a member missing from the group's member list. `chromaKeyImage` then raises AttributeError on `None.lstrip` (TrackItem.py:45-46 and 70). The model takes the colour string as a parameter, so this case does not arise.
- Labels.MemberOf: a label whose member is `None` in a loaded file is treated like the empty member, since both are falsy in the lookup.
- `isInStartOrEnd` and the marker drawing helpers are left out because they only draw.
- `VideoTrack.py`, `training_ui.py`, `voice_training.py` and the vocal separator are not part of this model.
- Replay idempotence is not promised, because the code does not give it. `initializePositions` keeps the reordered member dictionary, the queued slides and `heightOffset` between calls (audio_tester.py:521-530, TrackItem.py:122-127 and 171-173). `Replay.Replay` therefore takes the layout as an argument, and a second replay starts from the order and queues the first one left.
- Concurrency is not modelled: the UI runs on one thread and the model treats each handler as one atomic step.

Some behaviours are modelled as the code behaves, though they may look unintended:

- `checkAndSwap` compares the member's count at the current chunk with each higher member's count four chunks later, not with their current count.
- The member's own slide lasts the base length of rank 0, whichever ranks it passed, because the loop variable keeps its last value.
- A backward wrap in section 0 leaves the handle's section at -1 (`Sections.BackwardWrapAtStart`).
- `navigateRight` guards on the playback section rather than the handle's section, so repeated clicks pass the last section (`Navigation.NavigateRightPassesLastSection`).

## Findings

| source | as written | input that shows it | evidently intended | confidence | as-written member | corrected member |
|---|---|---|---|---|---|---|
| audio_processing.py:45 | A residue starting at `i` is reported as `(i, i + t + i)`. The end grows with the start and overruns the array. | `[0,0,0,1,1,1,1,1,0,0,0]` with `t = 5` reports `(3, 11)`. Confirming it zeroes index 11 of an 11-element array, which raises IndexError. | The end is the last 1 of the run, `i + t - 1`, giving `(3, 7)`. | not executed | Residues.AsWrittenEndOverruns | Residues.ResolveFoundResidues |
| audio_tester.py:530 | The last four chunks copy slot `len(chunks) - 4`. That slot is itself the first tail chunk, so the loop never simulates it. | Any song of at least four chunks with freshly built tracks: every tail chunk shows Y 0.0 for every member. | The tail holds the last simulated position, slot `len(chunks) - 5`. | not executed | Replay.AsWrittenTailIsInitialValue | Replay.InitializePositionsHoldsLast |
