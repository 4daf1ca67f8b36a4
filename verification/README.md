# Verified model of the mission software

A Dafny 4.11 model of the decision-making core of the mission software, with
proofs about it. `dafny verify dfyconfig.toml` checks everything.

| area | files |
|---|---|
| Path planner: clearance map, shortest corridor and its ties, width sweep, scoring, commands | `Minefield`, `Clearance`, `Corridor`, `TieBreaks`, `BestPath`, `Scoring`, `Commands`, `Mission` |
| Detection scoring: overlap measures, cross-tile merge, greedy matching, aggregation | `Overlaps`, `Merge`, `Matching`, `Evaluation` |
| Tiling: evenly spaced origins, training jitter | `Tiles`, `Jitter` |
| Video tracks: the loops, and the linking they compute | `Tracks`, `TrackLinking` |
| Flight-recorder cadence | `Cadence` |
| Formation verdict: line and closest pair, state machine, verdict on the history, floors, report pace | `FormationLine`, `FormationShape`, `Separation`, `FormationHistory`, `FormationFloor`, `FormationPace` |
| Label document: freeze, annotate, certify, and what a run leaves | `Labels`, `LabelHistory` |
| Hard negatives: propose, review, revalidate, materialize, QA sample | `HardNegatives`, `Proposals`, `ClearTiles`, `Reviews`, `ReviewHistory`, `Revalidation`, `Materialization`, `QaSample`, `QaSpread`, `ReviewSession` |
| Cross-validation folds: building, validating, and the plan they follow | `Folds`, `FoldPlan` |
| Calibration subset: selection, guarantee, limits | `Calibration`, `CalibrationGuarantee`, `CalibrationLimits` |
| What the checks on labels, reviews and locks accept, on the fields | `DocumentReads` |
| Shared: integers, results, sorting, strings | `Arithmetic`, `Outcomes`, `Sorting`, `Text` |

The planner is proved for every grid of at least one column and one row and
every set of mines; the encoder's upward ends need two rows. Exceptions are
`Result` or `Option` values, so every refusal is part of a contract, usually as
an if-and-only-if. Loops are methods with invariants; each is tied to a
definition that does not mention the loop (distance to the nearest mine, a
corridor no corridor is shorter than, a greedy matching, a period cell, a held
formation), and the promises are proved about that definition.

SHA-256 digests of canonical JSON are taken to be collision-free: the model
stores what was digested. Orders by digest are arbitrary rankings, so results
hold for whatever order the digest gives.

## Where the code and its documentation differ

- `find_best_path` (`drones/iarc_pathfinder.py:316-334`) keeps a path only when
  its score is positive. With 1 + 7 * scan time at or below zero no score is,
  and it returns no path even when corridors exist; `BestPath.NoneMeansImpossible`
  gives the exact condition, `BestPath.NegativeScanTimeHasCorridor` and
  `BestPath.NegativeScanTimeFindsNothing` an input.
- `_jittered` (`models/yolo/datagen/materialize.py:165-190`) says "clamped
  in-bounds", but an image side shorter than the tile makes the clamp negative.
  `Jitter.JitteredTilesInside`: in bounds if and only if both sides are at least
  one tile long; `Jitter.NarrowImageGoesNegative` is an input.
- `SeparationMonitor` announces a 2.8 m quality floor once the line has held for
  two seconds (`scripts/sep_monitor.py:23-25`). A fleet inside the line tolerances
  has no pair nearer than 3.0 - 0.2 = 2.8 m anyway (`FormationLine.InLineKeepsApart`).
  A formation breach can be counted, and the floor can change the verdict, exactly
  when the floor is above 2.8 m (`FormationPace.BreachExactly`,
  `FormationPace.FloorDecidesExactly`), so at its default it does nothing
  (`FormationFloor.SmallFloorsAgree`).
- `SeparationMonitor._report` (`scripts/sep_monitor.py:220-247`) sets completion
  before it looks at the separation, so the completing report's own separation is
  not checked, and `Separation.HeldFormation` stops before that report. On the
  callbacks alone a PASS covers it exactly when it keeps both floors
  (`Separation.PassCoversCompletingReport`). A report in formation is never nearer
  than 2.8 m, so the hard floor is always kept there
  (`FormationFloor.PassKeepsHardFloor`). The floor asked for can be missed there even
  on the monitor's half-second timer (`scripts/sep_monitor.py:48`, `129`;
  `FormationPace.LastReportIsNotChecked`): while reports are at most ten seconds apart a PASS covers it exactly when the floor
  is at most 2.8 m, or above the widest separation in formation, about 3.24 m, where
  nothing passes (`FormationPace.PassCoversExactly`, `FormationPace.PassPossibleExactly`).
  After a longer stall a PASS is possible at any floor (`FormationPace.StalledPasses`),
  and covers it only up to 2.8 m.
- `_select` (`models/yolo/export/calibrate.py:217-233`) refuses a count that "cannot
  cover calibration features", but only its greedy picks failed to:
  `CalibrationLimits.GreedyCanMissACover` and `CalibrationLimits.TwoCandidatesCover`
  are five tiles of two scenes, with features of the kind the loader gives them
  (`models/yolo/export/calibrate.py:121-153`), of which two cover everything, refused
  for a count of two. A refusal therefore does not rule out a covering selection. A
  count of at least the number of features, or of every candidate, is never refused
  (`Calibration.BigCountsSuffice`), a count of one is refused exactly when no candidate
  has every feature (`CalibrationGuarantee.OnePickExactly`), and while some m candidates cover
  everything, each pick takes at least 1/m of the rarity still missing
  (`CalibrationGuarantee.NextTakesItsShare`, `CalibrationGuarantee.GreedyApproaches`).
- A label document whose `certification` or `role_freeze` key is present but null
  counts as uncertified or unfrozen when validated, yet blocks the step that would
  set it (`models/yolo/audit/labels.py:228`, `247`); `Labels.Field` keeps absent,
  null and present apart, and `Labels.NullFreezeBlocksFreezing` and
  `Labels.NullCertificationBlocksCertifying` are such documents. Freezing a document
  that is already certified fails in the final validation, because the digest covers
  the new freeze (`Labels.FreezingBreaksCertification`).
- A certification digest covers only two keys of the certification object
  (`models/yolo/audit/labels.py:84-91`): further keys in it can be edited unnoticed
  (`Labels.ExtraKeysAreNotCovered`), everything else cannot.

## Model

| member | source | states |
|---|---|---|
| `Minefield.NearestIsLipschitz` | drones/iarc_pathfinder.py:107-110 | A king move changes the distance to the nearest mine by at most one. |
| `Minefield.NearerNeighbour` | drones/iarc_pathfinder.py:107-110 | Every cell that is not a mine has a neighbour in the grid exactly one step nearer to a mine, so the layers of the search have no gaps. |
| `Clearance.CoverageAdvances` | drones/iarc_pathfinder.py:132-145 | Once no queued cell lies within distance d, every cell at distance d + 1 has been reached. |
| `Clearance.CoverageCompletes` | drones/iarc_pathfinder.py:147-150 | An empty queue means every layer is reached, so the coverage assertion can never fail. |
| `Clearance.ExpandFront` | drones/iarc_pathfinder.py:132-145 | One turn of the outer loop keeps: distances exact, queue sorted and at most two layers deep, every popped cell expanded. |
| `Clearance.SearchFromMines` | drones/iarc_pathfinder.py:129-150 | For every non-empty in-grid mine set, and whatever order the set is enumerated in, the map holds the Chebyshev distance to the nearest mine at every cell. |
| `Clearance.ComputeClearanceMap` | drones/iarc_pathfinder.py:107-150 | Fails exactly for mines outside the grid and names them; otherwise the exact distance map, or a constant larger than the grid on an empty field. |
| `Corridor.WalkIsNotFaster` | drones/iarc_pathfinder.py:279-301 | No walk outruns the search: up to the least queued depth, the search reached each cell of any walk at least as early. |
| `Corridor.ExitIsNotCloser` | drones/iarc_pathfinder.py:282-291 | Hence no walk reaches the top row in fewer steps than the least depth still queued. |
| `Corridor.ExpandCell` | drones/iarc_pathfinder.py:293-301 | The inner loop keeps the search tree, the two-layer queue and the expansion invariant, and queues each cell at most once. |
| `Corridor.TracePath` | drones/iarc_pathfinder.py:285-291 | Following parents back from an exit yields a walk of distinct cells, one longer than the exit's depth. |
| `Corridor.SearchFromEntrances` | drones/iarc_pathfinder.py:279-303 | From all entrances at once: the first of the shortest corridors, or none exists. |
| `TieBreaks.DiscoveryIsRanked` | drones/iarc_pathfinder.py:293-301 | Numbering cells as they are discovered keeps: children ordered by parent and then by turn, every parent its cell's first discovered neighbour, the queue in that order. |
| `TieBreaks.TreeComesFirst` | drones/iarc_pathfinder.py:279-301 | A walk down such a tree is, or comes before, every walk of its length to a cell discovered no earlier. |
| `Corridor.ShortestSafePath` | drones/iarc_pathfinder.py:257-303 | None exactly when no bottom-to-top corridor of the half-width exists; otherwise a corridor with distinct cells that no corridor is shorter than, and the first of those as short: leftmost start column, then turns in the order up, left, right, down. |
| `Corridor.FirstIsUnique` | drones/iarc_pathfinder.py:262-263 | The field, the map and the half-width leave only one such corridor, so ties are deterministic. |
| `Scoring.ComputeGreenZone` | drones/iarc_pathfinder.py:199-211 | The result is exactly the field cells within G of the path and not on it. |
| `Scoring.ClearanceMeansUntouched` | drones/iarc_pathfinder.py:199-250 | Every cell of a path is more than G from every mine if and only if no mine lies on the path or in its green zone. |
| `Scoring.ScorePath` | drones/iarc_pathfinder.py:224-250 | The report counts the mines on the path and in its green zone; a path is alive with none missed if and only if it keeps clearance above G everywhere; a surviving path's score times its missed mines plus one, its length and the time and weight term is 150000 times its width, and a dead one scores zero. |
| `Commands.MovesOf` | drones/iarc_pathfinder.py:168-180 | Translation succeeds exactly on 4-connected paths, the moves walk the path back, and a failure names the first non-adjacent pair. |
| `Commands.EncodeRuns` | drones/iarc_pathfinder.py:185-190 | The runs are canonical (positive counts, neighbouring runs differ) and expand to exactly the moves. |
| `Commands.FollowRecovers` | drones/iarc_pathfinder.py:174-180 | The moves of a path and its first cell determine the path. |
| `Commands.GridPathToCommands` | drones/iarc_pathfinder.py:157-196 | Accepts exactly the empty path and connected paths whose first and last moves are upward; executing the program from row 0 walks the path; each error is raised only on its own cause. |
| `Commands.ShortestStartsAndEndsUpward` | drones/iarc_pathfinder.py:257-303 | A shortest corridor on two or more rows starts and ends upward, so encoding never refuses it. |
| `BestPath.CorridorIsSafe` | drones/iarc_pathfinder.py:257-303 | On an exact clearance map the search's notion of a corridor is the one stated on the mines alone. |
| `BestPath.NarrowerStaysSafe` | drones/iarc_pathfinder.py:306-313 | A corridor safe at one half-width is safe at every smaller one. |
| `BestPath.WiderIsNotShorter` | drones/iarc_pathfinder.py:306-313 | The shortest safe corridor never gets shorter as it gets wider. |
| `BestPath.ShorterScoresMore` | drones/iarc_pathfinder.py:214-221 | At a fixed width a shorter path scores at least as much, and the score is positive if and only if 1 + 7 * scan time is. |
| `BestPath.SweepWidths` | drones/iarc_pathfinder.py:316-340 | After the loop the kept triple beats every corridor of every considered half-width, and strictly beats narrower ones. |
| `BestPath.SweepIsExhaustive` | drones/iarc_pathfinder.py:321-340 | Half-widths outside the loop range admit no corridor, so the sweep's best is a joint optimum over all half-widths and all safe corridors. |
| `BestPath.NoneMeansImpossible` | drones/iarc_pathfinder.py:321-340 | No path is returned if and only if not even half-width 0 has a safe corridor, or 1 + 7 * scan time is not positive. |
| `BestPath.NegativeScanTimeHasCorridor` | drones/iarc_pathfinder.py:321-340 | On an empty field of one column and two rows there is a safe corridor, |
| `BestPath.NegativeScanTimeFindsNothing` | drones/iarc_pathfinder.py:321-340 | yet with a scan time of -1 every score on it is zero and the sweep returns no path. |
| `BestPath.ScoresCompare` | drones/iarc_pathfinder.py:214-221 | Two zero-miss scores compare as the widths do, each multiplied by the other path's length. |
| `BestPath.OptimumIsWidest` | drones/iarc_pathfinder.py:321-340 | A joint optimum is widest for its length: (1 + 2 G') |path| <= (1 + 2 G) |q| for every safe corridor q of every half-width G', strictly for a smaller one. |
| `BestPath.FindBestPath` | drones/iarc_pathfinder.py:306-340 | Stated on the field and the mines: the answer is the first shortest safe corridor of its half-width, it is widest for its length among all safe corridors of all half-widths and narrowest among equals, no such corridor scores more, and its clearance is the exact least distance to a mine, or the constant of an empty field. |
| `BestPath.AnswerIsUnique` | drones/iarc_pathfinder.py:306-340 | The field, the mines and the scan time leave only one such answer. |
| `Mission.ReportOfAnswer` | drones/iarc_pathfinder.py:224-250 | A safe corridor is reported alive, with no mine touched and the zero-miss score of its width and length. |
| `Mission.PlanMission` | drones/iarc_pathfinder.py:451-468 | Planning, scoring and encoding agree: the path is the optimizer's first shortest corridor, the report has its width and length and pays exactly the score no safe corridor exceeds, and executing the commands walks the path. |
| `Overlaps.IouIsAShare` | models/yolo/audit/evaluation.py:47-50 | Intersection over union is symmetric, between 0 and 1, and 1 exactly for the same rectangle. |
| `Overlaps.IouTimesUnion` | models/yolo/audit/evaluation.py:47-50 | It is the number that multiplies the area of the union to the area of the overlap. |
| `Overlaps.DisjointHasNone` | models/yolo/audit/evaluation.py:41-44 | The overlap of two rectangles is zero exactly when one lies beside, above or below the other. |
| `Overlaps.DuplicateOverlapIsAShare` | models/yolo/audit/evaluation.py:53-57 | The duplicate overlap is symmetric, at least the other measure, at most 1, and 1 exactly when one rectangle lies within the other. |
| `Overlaps.SmallerShare` | models/yolo/audit/evaluation.py:53-57 | It is the number that multiplies the smaller area to the area of the overlap. |
| `Overlaps.NoAreaNoOverlap` | models/yolo/audit/evaluation.py:37-57 | A box without area overlaps nothing by either measure. |
| `Merge.MergeCandidates` | models/yolo/audit/evaluation.py:60-82 | Keeps the greedy non-clashing boxes in rank order and counts the dropped ones. |
| `Merge.MergeFollowsFields` | models/yolo/audit/evaluation.py:60-82 | Kept boxes come by confidence, then tile row, tile column and edges, and a box is dropped only for a kept one that comes before it and overlaps it by the limit or more. |
| `Merge.MergeSeparatesAndCovers` | models/yolo/audit/evaluation.py:60-82 | Kept boxes overlap pairwise below the limit, and each dropped box overlaps an earlier-ranked kept one at or above it. |
| `Merge.MergeIgnoresOrder` | models/yolo/audit/evaluation.py:65-76 | The result does not depend on the input order. |
| `Merge.MergeIsIdempotent` | models/yolo/audit/evaluation.py:60-82 | Merging merged boxes changes nothing. |
| `Merge.MergeCommutesWithThreshold` | models/yolo/audit/evaluation.py:109-110 | Merging the boxes at or above a threshold equals the boxes at or above it in the merge of all, and is a prefix of that merge. |
| `Matching.BestChoice` | models/yolo/audit/evaluation.py:118-119 | The free truth with the largest (overlap, index) pair, or (0, -1) when none is free. |
| `Matching.MatchGreedily` | models/yolo/audit/evaluation.py:114-124 | The loop ends in the state of a greedy one-to-one matching: each prediction took its best free truth or had none overlapping enough. |
| `Matching.GreedyIsMaximal` | models/yolo/audit/evaluation.py:117-124 | No false positive and no missed truth overlap by the IoU threshold or more. |
| `Matching.GreedyIsHalfOptimal` | models/yolo/audit/evaluation.py:117-124 | Any one-to-one matching at the threshold has at most twice as many pairs as the greedy one. |
| `Matching.CountsBalance` | models/yolo/audit/evaluation.py:152-155 | True and false positives add up to the scored predictions; true positives and misses to the truths. |
| `Evaluation.CountByVisibility` | models/yolo/audit/evaluation.py:136-151 | One row per label, counting its matched and total truths, and the rows sum back to all matched and all truths. |
| `Evaluation.EvaluateImage` | models/yolo/audit/evaluation.py:95-164 | Fails exactly on a visibility count mismatch; otherwise true positives are the pairs of the greedy matching on the scored boxes, tile and merged candidates and false-positive tiles are counted exactly, visibility rows are exact or absent without labels, and all counts balance. |
| `Evaluation.IgnoredByCentre` | models/yolo/audit/evaluation.py:85-92 | A prediction is ignored exactly when a region contains its centre, edges included. |
| `Evaluation.EmptyTilesHit` | models/yolo/audit/evaluation.py:126-135 | The empty-tile set is exactly the empty origins with a non-ignored candidate at the threshold, merged away or not. |
| `Evaluation.TruePositivesAreHalfOptimal` | models/yolo/audit/evaluation.py:95-164 | The reported true positives are at least half of any one-to-one matching of the scored predictions. |
| `Evaluation.TallyVisibility` | models/yolo/audit/evaluation.py:207-221 | Aggregated rows sum each label over the images and still account for every true positive and every truth. |
| `Evaluation.AggregateMetrics` | models/yolo/audit/evaluation.py:167-222 | Each of the ten totals is the sum of its own field over the images; precision, recall and the four rates are the numbers that multiply their stated denominators to their numerators, or the stand-in for a zero denominator; each visibility row sums the images' rows of its label. |
| `Tiles.RoundIsNear` | models/yolo/audit/hard_negatives.py:55 | round() moves a quotient by at most one half. |
| `Tiles.RoundTiesToEven` | models/yolo/audit/hard_negatives.py:55 | A quotient half-way between two integers goes to the even one. |
| `Tiles.AxisCovers` | models/yolo/audit/hard_negatives.py:50-55 | Origins start at 0, end at extent - tile, strictly increase and step by at most tile - overlap. |
| `Tiles.AxisIsFewest` | models/yolo/audit/hard_negatives.py:53 | No covering of the axis with that stride uses fewer tiles. |
| `Tiles.IntervalInOneTile` | models/yolo/audit/hard_negatives.py:50-57 | An interval inside the image no longer than the overlap lies wholly in one tile. |
| `Tiles.SmallBoxIsWholeInOneTile` | models/yolo/audit/hard_negatives.py:45-57 | A box inside the image with both sides no longer than the overlap lies wholly in one tile, the guarantee the overlap is chosen for. |
| `Jitter.JitterAxis` | models/yolo/datagen/materialize.py:175-186 | The loop over one axis ends in the reference axis. |
| `Jitter.JitterIsJittered` | models/yolo/datagen/materialize.py:175-186 | In the reference axis every kept origin is a shifted value, the last one is the shifted edge anchor, gaps are at least half the unshifted spacing, and a dropped origin lies within half a spacing of the anchor. |
| `Jitter.JitteredIncreases` | models/yolo/datagen/materialize.py:175-186 | The jittered axis is strictly increasing. |
| `Jitter.InsideExactlyWhenTileFits` | models/yolo/datagen/materialize.py:181 | All origins lie in [0, limit] if and only if the limit is not negative. |
| `Jitter.Axes` | models/yolo/datagen/materialize.py:188-189 | The sorted distinct coordinates of the grid along each axis. |
| `Jitter.GridAxesRecovered` | models/yolo/datagen/materialize.py:188-189 | The axes recovered from the shared grid are the axes it was built from. |
| `Jitter.JitteredTilesInside` | models/yolo/datagen/materialize.py:162-190 | Every jittered tile lies inside the image if and only if both sides of the image are at least one tile long. |
| `Jitter.NarrowImageGoesNegative` | models/yolo/datagen/materialize.py:162-190 | A side of 600 pixels cut into tiles of 640 is given the single origin -40, whatever the offset. |
| `Jitter.Jittered` | models/yolo/datagen/materialize.py:162-190 | The tile list is the product of the two jittered axes of the grid; a tile of one pixel has no offset to draw and raises. |
| `Tracks.ChooseTrack` | models/yolo/tools/compare_cm2_video_candidates.py:110-119 | The nearest unused active track within 0.75 m, the first of equally near ones, or none when none is that near. |
| `Tracks.LinkDetections` | models/yolo/tools/compare_cm2_video_candidates.py:105-138 | The detection loop of one frame equals the reference step. |
| `Tracks.BuildStates` | models/yolo/tools/compare_cm2_video_candidates.py:93-142 | The frame loop, with its two expiry passes, equals the reference run. |
| `Tracks.NothingIsLost` | models/yolo/tools/compare_cm2_video_candidates.py:92-158 | Every located detection of an operational frame is an observation of exactly one track, and the ids are 0, 1, 2, ... without repetition: no track is lost on expiry. |
| `Tracks.TracksAreChains` | models/yolo/tools/compare_cm2_video_candidates.py:102-141 | For contiguous frames, consecutive observations of a track are one or two frames and at most 0.75 m apart with no non-operational frame between. |
| `Tracks.EveryTrackIsObserved` | models/yolo/tools/compare_cm2_video_candidates.py:143-146 | No track is empty, so taking its peak never fails. |
| `Tracks.Summarize` | models/yolo/tools/compare_cm2_video_candidates.py:143-157 | A row reports its track's ends, its length and its first strongest observation. |
| `TrackLinking.SquaredDistance` | models/yolo/tools/compare_cm2_video_candidates.py:88-89 | Comparing squared distances with 0.5625 and with each other is comparing distances with 0.75 m and with each other. |
| `TrackLinking.RunIsLinking` | models/yolo/tools/compare_cm2_video_candidates.py:92-142 | Over any contiguous table the tracker computes this definition on all tracks ever opened, without active list, expiry or used set: each located detection extends the track in reach that is nearest, then oldest, and opens the next track exactly when none is in reach. |
| `TrackLinking.LinkingIsUnique` | models/yolo/tools/compare_cm2_video_candidates.py:92-142 | That definition fixes the tracks. |
| `TrackLinking.RunIsFair` | models/yolo/tools/compare_cm2_video_candidates.py:110-138 | Whenever a track could have taken an observation of another track and has none in that frame, the observation continued a track that was nearer, or as near and older. |
| `TrackLinking.OpenedBesideNone` | models/yolo/tools/compare_cm2_video_candidates.py:110-138 | So no track is opened while another, without an observation in that frame, could have been continued. |
| `TrackLinking.RunInOrder` | models/yolo/tools/compare_cm2_video_candidates.py:99-142 | The tracks come by closing frame (two frames after the last observation, an earlier non-operational frame, or the end), then by id. |
| `TrackLinking.TrackListIsUnique` | models/yolo/tools/compare_cm2_video_candidates.py:92-142 | Definition and order leave one list of tracks. |
| `TrackLinking.BuildTracks` | models/yolo/tools/compare_cm2_video_candidates.py:92-158 | One summary row per track of the run, in order; for a contiguous table the tracks are those of the definition, in closing order. |
| `Cadence.GateIsDue` | tools/flight_recorder/recorder.py:70-74 | Passing the gate is the same as entering a later period cell than the last written stamp. |
| `Cadence.NextAdvances` | tools/flight_recorder/recorder.py:100-108 | The advance lands on the start of the cell after the written frame's. |
| `Cadence.HandleFrame` | tools/flight_recorder/recorder.py:66-108 | One turn of the loop takes the recorder's counters, written images, clock audits and gate to the specified next ones. |
| `Cadence.FrameKeepsStep` | tools/flight_recorder/recorder.py:66-108 | Such a turn keeps the counters and the gate equal to the reference's, and seen + sequence drops = last - first sequence + 1. |
| `Cadence.RecordSharedCm2` | tools/flight_recorder/recorder.py:45-109 | Over any run: the written stamps are exactly the reference's, in order, and every counter and the gate agree with it. |
| `Cadence.NextIsOnGrid` | tools/flight_recorder/recorder.py:100-108 | next_record_ns lies on the first frame's period grid, after the last written stamp and at most one period later. |
| `Cadence.StampsIncrease` | tools/flight_recorder/recorder.py:70-89 | Written stamps strictly increase if and only if there is a rate limit or the clock of the whole frames does; with a limit, even when the clock steps back. |
| `Cadence.UnlimitedWritesEveryFrame` | tools/flight_recorder/recorder.py:56-89 | Without a rate limit the written stamps are those of every frame that was not torn. |
| `Cadence.UnlimitedStampsCanFall` | tools/flight_recorder/recorder.py:56-89 | Without a rate limit and with a clock that does not advance, the written stamps do not increase. |
| `Cadence.CellsIncrease` | tools/flight_recorder/recorder.py:70-89 | Written stamps enter ever later period cells. |
| `Cadence.NoCellMissed` | tools/flight_recorder/recorder.py:70-89 | While the clock never steps back, every period cell that holds a whole frame has a written stamp. |
| `Cadence.RateIsBounded` | tools/flight_recorder/recorder.py:70-108 | At most floor(span / period) + 1 frames are written over the written span. |
| `Cadence.AuditsAreSpread` | tools/flight_recorder/recorder.py:91-99 | Clock audits are taken at written stamps at least a second apart, and no written stamp leaves a second or more unaudited. |
| `Separation.SeparationMonitor.OnDecision` | scripts/sep_monitor.py:137-150 | A decision callback takes the monitor's whole state to the specified next state and extends the history. |
| `Separation.SeparationMonitor.OnReport` | scripts/sep_monitor.py:177-258 | A report callback measures the positions and takes the monitor's whole state to the specified next state; the history is extended by the measured report. |
| `Separation.SeparationMonitor.Summary` | scripts/sep_monitor.py:260-280 | The verdict is the specified one, and a PASS comes with a held formation in the history. |
| `Separation.EveryRunIsExplained` | scripts/sep_monitor.py:137-258 | After any interleaving of callbacks the state is explained by where the candidate run, the establishment and the completion lie in the history. |
| `Separation.PassMeansHeldFormation` | scripts/sep_monitor.py:177-280 | PASS implies a contiguous in-formation run of at least 12 s, no hard breach before the completing report, no formation breach since establishment, and at most 5 % ORCA corrections counted inside that interval only. |
| `Separation.PassExactly` | scripts/sep_monitor.py:260-280 | PASS if and only if the evaluation completed and the marked run was held. |
| `Separation.CompletionIsFinal` | scripts/sep_monitor.py:138-139 | After completion no callback changes the verdict, or anything but the worst separation seen. |
| `Separation.WorstIsLeast` | scripts/sep_monitor.py:256-257 | The worst separation is the least one any evaluated report had, completion or not, and absent exactly without such a report. |
| `Separation.PassCoversCompletingReport` | scripts/sep_monitor.py:220-247 | For every passing history, all reports through the completing one keep the hard floor and those since establishment the floor asked for, if and only if the completing report keeps both. |
| `FormationHistory.EveryRunFollowsHistory` | scripts/sep_monitor.py:199-236 | Over every interleaving the monitor's candidate, establishment and completion are the ones a definition on the history alone gives. |
| `FormationHistory.CompletionExactly` | scripts/sep_monitor.py:199-236 | The evaluation completes if and only if some candidate run of the history spans twelve seconds. |
| `FormationHistory.EvaluationIsMarked` | scripts/sep_monitor.py:199-236 | The marked start, establishment and completion are the history's one evaluation: the first completion, of the run joined to it, established at its first report two seconds in. |
| `FormationHistory.PassOnHistory` | scripts/sep_monitor.py:177-280 | PASS if and only if the history has an evaluation and it was held; nothing of the machine's state enters the condition. |
| `FormationLine.ClosestPair` | scripts/sep_monitor.py:183-188 | The loop over the pairs returns a separation some pair has and no pair undercuts. |
| `FormationShape.InLineExactly` | scripts/sep_monitor.py:166-198 | The fleet is in line if and only if every vehicle is within 0.25 m east or west of the midpoint of the two middle ones (the same one in an odd fleet) and neighbours to the north are 2.8 m to 3.2 m apart, said by order statistics, without sorting. |
| `FormationLine.InLineKeepsApart` | scripts/sep_monitor.py:166-198 | A fleet of any size inside the line tolerances has its closest pair at least 2.8 m apart. |
| `FormationLine.InLineStaysNear` | scripts/sep_monitor.py:166-198 | Nor is its closest pair farther apart than two vehicles at opposite edges of the tolerances, hypot(0.5, 3.2) m. |
| `FormationFloor.SmallFloorsAgree` | scripts/sep_monitor.py:238-247 | Over every run of measured reports, two floors of at most 2.8 m give the same monitor state. |
| `FormationFloor.SmallFloorNeverBreaches` | scripts/sep_monitor.py:243-245 | With a floor of at most 2.8 m no run ever counts a formation breach. |
| `FormationPace.BreachExactly` | scripts/sep_monitor.py:243-245 | At any report pace from the timer's half second up, some history of measured reports counts a formation breach if and only if the floor is above 2.8 m. |
| `FormationPace.FloorDecidesExactly` | scripts/sep_monitor.py:260-280 | At any such pace some history passes with a floor of 2.8 m and fails with another floor if and only if that is above 2.8 m. |
| `FormationFloor.PassKeepsHardFloor` | scripts/sep_monitor.py:220-247 | In every passing run of measured reports the completing report is at 2.8 m or more, so only a higher floor can be missed there, exactly when its own separation is below it. |
| `FormationPace.PassPossibleExactly` | scripts/sep_monitor.py:199-280 | While counted reports are at most ten seconds apart, a PASS is possible if and only if the floor is at most the widest separation in formation. |
| `FormationPace.EstablishedBeforeCompletion` | scripts/sep_monitor.py:204-223 | At such a pace the report that establishes the formation is never the one that completes the evaluation. |
| `FormationPace.OnTimerVerdict` | scripts/sep_monitor.py:199-280 | Twenty-five reports half a second apart in formation pass exactly when the separation before the last one keeps the floor, whatever the last one is. |
| `FormationPace.LastReportIsNotChecked` | scripts/sep_monitor.py:220-247 | For every floor above 2.8 m and up to the widest separation, such a run passes with its completing report below the floor. |
| `FormationPace.StalledPasses` | scripts/sep_monitor.py:204-247 | Three reports in formation, the last more than ten seconds after the second, pass whatever the floor. |
| `FormationPace.PassCoversExactly` | scripts/sep_monitor.py:220-247 | At any pace from the timer's up, a PASS vouches for the floor in every report through the completing one, for all positions, if and only if the floor is at most 2.8 m, or reports are at most ten seconds apart and it is above the widest separation. |
| `Labels.ValidateLabels` | models/yolo/audit/labels.py:107-219 | Accepts exactly the valid documents, unchanged. |
| `DocumentReads.ValidBoxExactly` | models/yolo/audit/labels.py:94-104 | A box is accepted exactly when it has an inside and none of it is outside the photo. |
| `DocumentReads.FrozenRolesRead` | models/yolo/audit/labels.py:71-81 | A freeze digests exactly one hash, group and role for each photo. |
| `Labels.FreezeRoles` | models/yolo/audit/labels.py:222-238 | Succeeds exactly on a valid, never frozen, uncertified document under a non-blank name; its output validates as frozen and is the input with a freeze that records that name, stripped, and the roles of its images. |
| `Labels.CertifyLabels` | models/yolo/audit/labels.py:241-266 | Succeeds exactly when the document is valid, frozen, not certified, every image is complete or certified and the name is not blank; its output validates and is the input with every review state certified and a certification under that name, stripped. |
| `Labels.UpdateAnnotation` | models/yolo/audit/annotation.py:75-93 | Succeeds exactly on an authorized update whose result is valid; then the record at the index holds exactly the objects, ignore regions and review state sent, and nothing else differs. |
| `Labels.UpdateTouchesOneRecord` | models/yolo/audit/annotation.py:75-93 | An update changes one record, and in it only the three annotation fields. |
| `Labels.LifecycleIsSafe` | models/yolo/audit/labels.py:192-266 | Over every run of freeze, update and certify: the document stays valid, identities and roles never change, a freeze is never remade, and a certified document never changes. |
| `Labels.CertificationEndsTheRun` | models/yolo/audit/labels.py:192-266 | A document certified anywhere in a run is the document the run ends with. |
| `Labels.CertifiedIsTamperEvident` | models/yolo/audit/labels.py:204-216 | Two valid certified documents with the same digest are equal up to further keys of the certification object. |
| `Labels.ExtraKeysAreNotCovered` | models/yolo/audit/labels.py:84-91 | Further keys of the certification object can be replaced and the document stays valid. |
| `Text.StripTrims` | models/yolo/audit/labels.py:234 | Stripping a name removes white space from both ends, all of it and nothing else. |
| `Labels.NullFreezeBlocksFreezing` | models/yolo/audit/labels.py:222-238 | A valid document whose freeze key is null is refused by every freeze. |
| `Labels.NullCertificationBlocksCertifying` | models/yolo/audit/labels.py:241-266 | A valid, frozen, finished document whose certification key is null is refused by every certification and every annotation. |
| `Labels.FreezingBreaksCertification` | models/yolo/audit/labels.py:204-238 | Freezing any certified document would leave it invalid. |
| `Labels.FrozenRolesAreTamperEvident` | models/yolo/audit/labels.py:192-200 | A document that keeps the freeze digest keeps every photo's group and role. |
| `Labels.LabelFile.Save` | models/yolo/audit/annotation.py:169-189 | After success the stored document holds exactly the fields sent in the record at the index and is otherwise the old one; a refusal leaves it alone. |
| `LabelHistory.LiveIsHistory` | models/yolo/audit/labels.py:192-266 | Every run of freezes, updates and certifications takes accepted steps only: a step either does what its request says or changes nothing. |
| `LabelHistory.LastWriteCounts` | models/yolo/audit/labels.py:192-266 | Over every such run a record's objects, ignore regions and review state are those of the last accepted update of its index, with the state certified after a certification. |
| `Labels.LabelFile.CertifyAll` | models/yolo/audit/annotation.py:179-189 | Succeeds exactly with the acknowledgement, a non-blank name and a valid, frozen, finished document without a certification key; a refusal leaves the stored document alone. |
| `HardNegatives.CandidateIsRepresented` | models/yolo/audit/hard_negatives.py:141-154 | Every candidate of at least 0.10 has its tile in the table, with at least its confidence. |
| `HardNegatives.StrongestIsOffered` | models/yolo/audit/hard_negatives.py:141-154 | Every confidence in the table was offered by a candidate of that tile. |
| `HardNegatives.SelectFirst` | models/yolo/audit/hard_negatives.py:155-164 | The selection loop returns the first items that pass, up to the limit. |
| `HardNegatives.BaselineChoiceIsSound` | models/yolo/audit/hard_negatives.py:155-164 | At most eight distinct tiles, each at 0.10 or more and touching no annotation. |
| `HardNegatives.BaselineChoiceIsBest` | models/yolo/audit/hard_negatives.py:155-164 | A clear tile with a candidate is chosen at that confidence or more, unless eight tiles at least as confident are. |
| `HardNegatives.ChosenTilesAreOnGrid` | models/yolo/audit/hard_negatives.py:142-193 | Every proposed tile is a tile of the deployment grid, and a detection carries a confidence some candidate of its tile really had. |
| `HardNegatives.CleanChoiceIsSound` | models/yolo/audit/hard_negatives.py:179-193 | At most two distinct clear tiles not already used, and fewer only when there are no more. |
| `HardNegatives.Gather` | models/yolo/audit/hard_negatives.py:122-204 | The photo loop equals the reference, including which photo's error is raised. |
| `HardNegatives.ProposalIsSound` | models/yolo/audit/hard_negatives.py:122-226 | A proposal is a valid review whose entries are tiles of certified training photos touching no mine and no ignore region, with that photo's source, group and role. |
| `Proposals.ProposesExactly` | models/yolo/audit/hard_negatives.py:100-153 | There is a proposal exactly for certified frozen labels and a baseline that lists no photo twice, has valid tile geometry, keeps candidates down to 0.10 and holds, for every certified training photo, a record of its size whose candidates have confidences in [0, 1] and grid tiles. |
| `Proposals.ProposalHoldsPhoto` | models/yolo/audit/hard_negatives.py:139-204 | Of each certified training photo a proposal holds exactly: the eight strongest clear tiles with their strongest confidence of at least 0.10, ties by row and column, or all of them; and the two clear tiles of least digest that no detection took, or all of them; each as a pending entry with the photo's source, group and role. |
| `Proposals.OthersHoldNothing` | models/yolo/audit/hard_negatives.py:122-126 | Every entry is of a certified training photo. |
| `Proposals.EntriesInIdOrder` | models/yolo/audit/hard_negatives.py:206 | Entries come in the order of their ids. |
| `HardNegatives.Propose` | models/yolo/audit/hard_negatives.py:100-226 | Succeeds exactly for certified frozen labels and a baseline that covers them, and returns the one proposal; its final validation never fails. |
| `ClearTiles.ClearMeansUntouched` | models/yolo/audit/hard_negatives.py:28-31 | For valid boxes a tile counts as clear if and only if no object box and no ignore region of the photo has a point strictly inside it that is strictly inside the tile's part of the photo. |
| `ClearTiles.ProposedTilesAreUntouched` | models/yolo/audit/hard_negatives.py:155-193 | So no proposed tile has a point strictly inside an object box or an ignore region of its photo, |
| `ClearTiles.AcceptedTilesAreUntouched` | models/yolo/audit/hard_negatives.py:314-326 | nor does any tile of a review that revalidates, |
| `ClearTiles.EmittedTilesAreUntouched` | models/yolo/audit/hard_negatives.py:374-424 | nor any tile that is materialized. |
| `Revalidation.RecheckEntries` | models/yolo/audit/hard_negatives.py:314-326 | Accepts exactly when every entry still names an eligible photo and a clear tile. |
| `Revalidation.RevalidateReview` | models/yolo/audit/hard_negatives.py:286-327 | Accepts exactly a valid review that equals the proposal of its inputs, paths and policy included, up to confirmations, and whose tiles are still sound. |
| `Revalidation.RecheckIsRedundant` | models/yolo/audit/hard_negatives.py:314-326 | The last per-entry checks never refuse a review that passed the provenance comparison. |
| `Revalidation.ReachableStillRevalidates` | models/yolo/audit/hard_negatives.py:286-327 | Every review reachable from a proposal by browser updates revalidates; decided entries stay decided and fewer and fewer are pending. |
| `Reviews.ValidateReview` | models/yolo/audit/hard_negatives.py:229-283 | Accepts exactly the valid reviews. |
| `Reviews.ConfirmationCounts` | models/yolo/audit/hard_negative_review.py:24-35 | The three counts are those of the entries and partition them. |
| `Reviews.UpdateConfirmation` | models/yolo/audit/hard_negative_review.py:170-189 | Succeeds exactly for a valid review, the two keys, a decision and a known id; then the entry with that id holds the decision sent, is otherwise the old one, and every other entry and field is unchanged. |
| `Reviews.UpdatesOnlyDecide` | models/yolo/audit/hard_negative_review.py:170-189 | Over every run of updates only confirmations differ, validity is kept, decided entries stay decided and the pending count never grows. |
| `Materialization.SelectTiles` | models/yolo/audit/hard_negatives.py:364-424 | Succeeds exactly when every photo of an unrejected entry is unchanged, with the selection the next lemma describes. |
| `Materialization.SelectionKeepsUnique` | models/yolo/audit/hard_negatives.py:364-424 | The selected tiles are the first of each distinct image; emitted + duplicates + rejected = entries; each duplicate names an emitted tile with its image. |
| `Materialization.Materialize` | models/yolo/audit/hard_negatives.py:335-448 | Succeeds exactly for a decided (or certification-backed) review that revalidates, with unchanged photos and something left; emits the unique tiles by name with all counts adding up. |
| `Materialization.EmittedTilesAreSafe` | models/yolo/audit/hard_negatives.py:374-424 | Whatever is emitted was not rejected, is pending only when certification-backed, and is a tile of a certified training photo touching no mine and no ignore region. |
| `Materialization.EmittedImagesAreUnique` | models/yolo/audit/hard_negatives.py:396-402 | No image is emitted twice and no image of an unrejected entry is lost. |
| `ReviewSession.DecisionStaysAccepted` | models/yolo/audit/hard_negative_review.py:285-291 | A decision takes a review of the inputs to a review of the same inputs, so the second revalidation never refuses. |
| `ReviewSession.UpdateReview` | models/yolo/audit/hard_negative_review.py:285-291 | Reload and update succeed exactly for a review of the inputs and an authorized update. |
| `ReviewSession.VerifySourceHashes` | models/yolo/audit/hard_negative_review.py:234-246 | Accepts exactly when every photo an entry names still has the hash it is listed under. |
| `ReviewSession.Session.Open` | models/yolo/audit/hard_negative_review.py:211-232 | Opens exactly on a review of its inputs whose photos are all unchanged and a usable sample size, and shows the sample of that size described below, an order that fits the review. |
| `ReviewHistory.LastDecisionCounts` | models/yolo/audit/hard_negative_review.py:170-189 | Over every run of updates an entry's confirmation is the last decision accepted for its id, or the original one without any. |
| `ReviewHistory.RejectedIsNotEmitted` | models/yolo/audit/hard_negatives.py:374-424 | An entry whose last decision was a rejection is never emitted. |
| `ReviewSession.Session.Update` | models/yolo/audit/hard_negative_review.py:285-296 | The review after an update holds the decision sent for its entry and is otherwise the old one; a refusal changes nothing; the answer is the position to resume at, and an error only after somebody else changed the provenance. |
| `QaSample.SpacedIncreases` | models/yolo/audit/hard_negative_review.py:76-82 | The picked positions strictly increase and stay inside the pool. |
| `QaSample.SpacedIsCentred` | models/yolo/audit/hard_negative_review.py:82 | Each pick is the midpoint of its own equal share of the pool. |
| `QaSample.SpacedKeeps` | models/yolo/audit/hard_negative_review.py:76-82 | The picks are distinct pool items, exactly as many as asked for or available. |
| `QaSample.DisplayIsAnOrder` | models/yolo/audit/hard_negative_review.py:38-59 | The display order is a permutation of the entries, ordered by the display key. |
| `QaSample.BestIsOnePerKey` | models/yolo/audit/hard_negative_review.py:113-139 | The grouping leaves one representative per source, each a listed entry. |
| `QaSample.BestBeatsAll` | models/yolo/audit/hard_negative_review.py:124-139 | No listed entry beats the representative of its source. |
| `QaSample.OnePerSourceRepresents` | models/yolo/audit/hard_negative_review.py:113-149 | The pool has distinct sources, is ordered, and holds only pending entries of the kind outside the avoided sources. |
| `QaSample.EveryPooledIsRepresented` | models/yolo/audit/hard_negative_review.py:113-149 | Every pooled entry has a representative of its source that is at least as good. |
| `QaSample.BaselineTargetIsThreeQuarters` | models/yolo/audit/hard_negative_review.py:151 | The detection share is three quarters of the needed entries to the nearest one, but at least one. |
| `QaSample.SpreadIsFresh` | models/yolo/audit/hard_negative_review.py:151-160 | New entries are pending, come from pairwise different sources that no decision covers, and are no more than needed. |
| `QaSpread.DisplayIsShownInOrder` | models/yolo/audit/hard_negative_review.py:38-59 | The display order lists photos as the manifest does, within a photo detections first, strong ones before weak ones, then by row, column and id. |
| `QaSpread.PoolIsPool` | models/yolo/audit/hard_negative_review.py:113-149 | A pool holds, for every source with a pending entry of the kind outside the avoided ones, one entry that no entry of that source beats, from the weakest detection up or by hash. |
| `QaSpread.SpreadCounts` | models/yolo/audit/hard_negative_review.py:151-160 | The sample takes min(three quarters of the new entries, fresh sources with a detection) detections, then min(the rest, further fresh sources with a clean tile) controls. |
| `QaSpread.QaDisplayIndices` | models/yolo/audit/hard_negative_review.py:85-167 | Fails exactly on an invalid review or a size below one under the pool size; otherwise everything, the decided entries, or, for any other size, exactly that many entries: the decided ones, a spread of detections and controls from the middle of equal shares of their pools, and the first others of the display order. |
| `QaSample.ResumePosition` | models/yolo/audit/hard_negative_review.py:62-73 | Fails exactly on an invalid review or order; otherwise the first pending position, or the first position when nothing is pending. |
| `Folds.EveryPhotoInOneFold` | models/yolo/audit/folds.py:58-86 | Every photo of the role is in exactly one fold, under its own stratum, and nothing else is in any. |
| `Folds.RoundRobin` | models/yolo/audit/folds.py:76-81 | Dealing n photos into k folds gives fold f exactly n / k, and one more to the first n mod k folds. |
| `Folds.EachStratumIsBalanced` | models/yolo/audit/folds.py:67-86 | Every stratum's count in every fold, and any two folds differ by at most one. |
| `Folds.LaterFoldsAreNoLarger` | models/yolo/audit/folds.py:67-86 | A later fold never holds more photos than an earlier one, and at most three fewer. |
| `Folds.FoldsIgnoreOrder` | models/yolo/audit/folds.py:67-118 | Reordering the manifest changes neither an assignment nor a count. |
| `Text.StringLeReads` | models/yolo/audit/folds.py:86 | Strings compare as a prefix or by the first character in which they differ. |
| `FoldPlan.StratumReads` | models/yolo/audit/folds.py:25-37 | A photo is negative exactly without a clear or partial object, clear or partial exactly with that one object and no other, and refused otherwise. |
| `FoldPlan.RankOfDealt` | models/yolo/audit/folds.py:67-86 | A photo's place in the shuffled stratum is the number of photos of that role and stratum with a smaller digest, or the same digest and a smaller hash. |
| `FoldPlan.BuiltIsPlan` | models/yolo/audit/folds.py:44-118 | What is built has, sorted by hash, one item per photo of the role with its name, hash, stratum and number of visible objects, in the fold of its rank modulo the folds, and counts the items of each fold and stratum. |
| `Folds.BuildFoldDocument` | models/yolo/audit/folds.py:44-118 | Succeeds exactly for certified labels, two folds or more, a seed, and a role holding every stratum and no photo with two objects, with the plan above. |
| `Folds.BuiltFoldsValidate` | models/yolo/audit/folds.py:121-209 | What is built always validates against the labels it was built from. |
| `Folds.ValidateFoldDocument` | models/yolo/audit/folds.py:121-209 | Accepts exactly the intact locks that match the labels hash and exactly cover the role when labels are given. |
| `Folds.SelectSourceHashes` | models/yolo/audit/folds.py:223-236 | Succeeds exactly on a valid lock and a fold in range, with the hashes of one side. |
| `Folds.SplitPartitionsRole` | models/yolo/audit/folds.py:223-236 | For every fold, held-out and training hashes partition the role's hashes. |
| `Folds.HeldOutByOneFold` | models/yolo/audit/folds.py:223-236 | Each photo of the role is held out by exactly one fold. |
| `Folds.SelectRecords` | models/yolo/audit/folds.py:239-245 | Fails exactly on a bad lock, a bad fold or a held-out photo without a record; otherwise the held-out records in order. |
| `Folds.OwnRecordsSuffice` | models/yolo/audit/folds.py:239-245 | The label document itself has a record for every held-out photo. |
| `Calibration.BestCoversSomething` | models/yolo/export/calibrate.py:220-227 | While something is uncovered, the chosen candidate covers some of it. |
| `Calibration.PickIsUseful` | models/yolo/export/calibrate.py:220-229 | Candidates never run out before coverage does, and every pick shrinks the uncovered set. |
| `CalibrationGuarantee.PickReads` | models/yolo/export/calibrate.py:221-228 | A pick takes the candidate whose uncovered features, each counted once, are rarest in sum, then the most, then the one of least digest. |
| `Calibration.RunIsConsistent` | models/yolo/export/calibrate.py:217-234 | After any number of picks, selected and remaining make up the candidates, the uncovered features are those nobody selected has, and picks + uncovered is at most the number of features. |
| `Calibration.FeaturesSuffice` | models/yolo/export/calibrate.py:220-231 | As many picks as there are features always cover everything. |
| `Calibration.BigCountsSuffice` | models/yolo/export/calibrate.py:217-233 | The greedy picks always cover everything when the count is at least the number of features or takes every candidate. |
| `CalibrationGuarantee.NextTakesItsShare` | models/yolo/export/calibrate.py:220-230 | With any m candidates that cover every feature, a pick takes at least 1/m of the rarity still missing. |
| `CalibrationGuarantee.GreedyApproaches` | models/yolo/export/calibrate.py:217-230 | After n picks at most ((m - 1) / m) to the n of the rarity is missing, for every cover of m candidates. |
| `CalibrationGuarantee.OnePickExactly` | models/yolo/export/calibrate.py:217-233 | One pick covers everything if and only if one candidate has every feature. |
| `Calibration.SelectCalibration` | models/yolo/export/calibrate.py:203-238 | Succeeds exactly for a count in range within which the greedy picks cover every feature, so always when the count is at least the number of features or of candidates; the result has exactly that many of the candidates, coverage first, then the least-ranked rest. |
| `CalibrationLimits.GreedyCanMissACover` | models/yolo/export/calibrate.py:121-233 | For five tiles of two scenes, with the scene, surface, altitude, content, grass, tag and colours the loader gives them, the greedy picks miss a feature at a count of two, whatever the names and the digests, |
| `CalibrationLimits.TwoCandidatesCover` | models/yolo/export/calibrate.py:121-233 | although two of those tiles have every feature between them. |
| `CalibrationLimits.FiveExist` | models/yolo/export/calibrate.py:156-200 | Such candidates exist for any feature names and any tile names. |

## Left out

- Floating point: scores, overlaps, confidences and distances are exact reals, 0.75 m is compared squared, and `round(a / b)` is taken on the exact quotient.
- SHA-256, JSON encoding and file formats: digests stand for their contents, documents are typed records, and checks that a JSON value has the right type are not modelled.
- Entry ids: a truncated digest is modelled as injective in source, position and tile.
- NaN and infinite numbers in labels and baseline reports.
- Whitespace in `strip()`: the ASCII characters only.
- Text of the command program: `S,x,G` and the run lines are structured values, not strings.
- Files, images, HTTP, ROS, locks and clocks: `propose`, `materialize` and the sessions take the loaded documents, the hash of a cropped tile and which photos are unchanged as inputs; paths are compared as strings and not resolved, and the output directory check is not modelled.
- Threads: a review session's lock makes its updates sequential, and the model is sequential.
- Exception messages: only which check raised is kept, and in the label and baseline checks several reasons share one error.
- Tracks are values; `build_tracks` shares and mutates dictionaries, and relies on ids to compare them.
- Jitter.Jittered: the two offsets are parameters rather than draws from the generator.
- Separation.SeparationMonitor.OnReport: the positions and the Euclidean length `hypot` are parameters, taken to be exact; the odometry callback with its spawn offsets, altitudes, acceleration and jerk statistics, the worst separation in formation, the names of the worst pair and the printed lines are not modelled.
- Cadence.RecordSharedCm2: the polls and torn copies are inputs, and the messages written to the bag are reduced to their stamps.
- ReviewSession.Session.Open: whether a photo still has its hash is a parameter per hash, and the state sent to the browser is reduced to the position to resume at.
- QaSpread.QaDisplayIndices: the greatest or least of each source's list is kept as the list is built, instead of after it.
- Calibration.SelectCalibration: how the features of a candidate are read from its scene is not modelled.
- Command line, plotting, batch mode, `generate_minefield`, `grid_index` and fetching minefields: input preparation with no further property.
- Drone roles, radio and network protocols, Blender and SAM tooling, camera geometry and the localization experiments: foreign calls and numerical library code.
