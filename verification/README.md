# Verification model of the device's core algorithms and protocols

A Dafny 4.11 project. It models, component by component, the algorithms and protocols the device
software relies on, and proves what their code, comments and tests promise. `dafny verify
dfyconfig.toml` checks all of it.

| component | modules |
|---|---|
| tile geometry, label clipping, tile crops | `Geometry`, `BoxArea`, `TileGrid`, `TileLabels`, `TileSplit` |
| cross-tile merging: suppression and fragment grouping | `StableOrder`, `BoxMerge`, `FragmentGroups`, `FragmentMerge` |
| seqlock shared-memory rings | `SharedRing`, `ProcessedRing`, `CameraRing`, `CameraRuns` |
| access point against Wi-Fi changes, supplicant configuration | `Supplicant`, `RadioProtocol`, `RadioRuns`, `WifiConfig` |
| bounded store-and-forward queue | `QueueTables`, `BoundedQueue` |
| versioned event bus | `EventBus` |
| dataset labels, registry, shards and splits | `DatasetLabels`, `DatasetRegistry`, `RegistryRuns`, `DatasetSplits`, `ShardBalance` |
| editor tokens | `Base64Url`, `FlowToken` |
| shared definitions | `Basics` |

How the pieces are shaped:

- Loops and objects that change state are methods and classes (`TileSplitStats`, `Queue`, `Bus`,
  `Wpa`, `Dataset`), each proved against functions on values; the promises are lemmas about those
  functions and invariants every method keeps.
- The rings, the radio protocol and the registry are about interleavings and crashes. They are step
  machines: a state, one event per scheduling choice, a `Run` over any list of events, and an
  invariant every event keeps.
- A command that may fail (SQLite, the Wi-Fi daemon, a file write) asks a plan, which each operation
  takes as a parameter: it says of every command whether it raises and, for the daemon, whether the
  command was carried out all the same. Contracts say exactly for which plans an operation succeeds
  and what it leaves behind otherwise; a plan without faults is one instance.
- Coordinates, scores, overlaps and times are `real`. Areas are counted cell by cell over an arbitrary
  grid that has the boxes' edges among its lines (`BoxArea`), and what the similarity measures mean is
  said in those areas.

## Where the code falls short of a promise

Each point is proved: a failing case, the exact condition under which the promise holds, or both.

- A small box is whole in some tile unless rounding the overlap reaches the whole tile
  (`TileGrid.HalfPixelBoxCut`, `TileGrid.SmallBoxesWholeExactly`). The grid's comment speaks of every
  object below the overlap.
- A label is written to some crop exactly when some tile sees enough of it. That holds for every label
  while tile count times minimum visibility is at most 1, and fails for a label filling a 16:9 frame
  when each of its two tiles must see three quarters (`TileSplit.EveryLabelWritten`,
  `TileSplit.LabelWrittenIff`, `TileSplit.WideLabelLost`).
- The gateway's copy of the event bus answers like the shared one exactly while the gap is still
  buffered; beyond that it skips evicted invalidations without a snapshot
  (`EventBus.GatewaySameIffGapFits`, `EventBus.GatewaySkips`).
- The camera reader is called safe across threads. A frame is whole as long as the attach generation
  did not change between the load of the counter and the return; when another thread's call remaps the
  reader in between, bytes nobody published can be returned (`CameraRing.OnlyWholeFrames`,
  `CameraRuns.TornAcrossRemap`). A number stands for one frame as long as, besides, no thread was
  between dropping the old mapping and moving the offset on; a call that maps the new segment in that
  gap reuses numbers (`CameraRing.NumberNamesOneFrame`, `CameraRuns.NumberUsedTwice`). Over all runs each
  holds if and only if a single caller uses the reader (`CameraRuns.WholeIffOneCaller`,
  `CameraRuns.NumbersIffOneCaller`); in a run whose callers take turns both hold too
  (`CameraRuns.OneAtATimeTrusted`).
- `record` of the audit buffer says it never raises. It lets a file-system error through exactly when
  the queue is not cooling down, has no connection and cannot make its directory; so do acknowledging
  (when given ids) and listing (`BoundedQueue.Queue.Record`, `BoundedQueue.Queue.Ack`,
  `BoundedQueue.Queue.ListBacklog`, `BoundedQueue.RecordCanRaise`).
- An acknowledgement whose deletions are rolled back still returns the number it had counted: right
  when it is carried out, and otherwise the rows of the chunks processed before the error, though none
  of them was deleted (`BoundedQueue.Queue.Ack`, `BoundedQueue.AckOvercounts`).
- A deleted dataset can come back if and only if a metadata save of it (a rename that already looked it
  up) was in flight at the deletion (`DatasetRegistry.DeletedReturnsIff`,
  `DatasetRegistry.TombstonedReturnsIffSavedLate`).
- A crash between the legacy migration's rename and its metadata write leaves the dataset
  unregistered for good (`DatasetRegistry.MigrationStrands`).
- Pre-labelled photos of a face dataset compare names exactly, so one person can get two classes;
  people stay distinct exactly when the name is listed already or folds to a new key
  (`DatasetLabels.PhotoKeepsPeopleIff`, `DatasetLabels.TwoEntriesOnePerson`).
- A class removal that breaks off after rewriting some label files leaves those files reading
  right exactly when they held no id above the removed class (`DatasetLabels.BrokenRemovalReads`).
- The shards of a classification export cover the dataset exactly when every image has a class
  (`DatasetSplits.FoldersCoverIff`). They differ by at most one image for every shuffle exactly when
  there is one shard, or no more images than shards, or at most one image with a class, or none
  without, or one without and the shards of equal size (`ShardBalance.FoldersEvenIff`,
  `DatasetSplits.FoldersUneven`).
- A connect that was saved makes the chosen network strictly preferred exactly when the priority
  command, whose failure is only logged, was carried out or the network was ahead already
  (`WifiConfig.Wpa.Connect`).
- A join deadline that has begun to fire can outlive its access-point session and stop the next one
  (`RadioProtocol.StaleDeadline`). It stops its own session exactly when the timer is still armed for
  that session at the claim, which is exactly when no later session began before it
  (`RadioProtocol.ClaimsOwnIffArmed`, `RadioProtocol.ClaimsOwnIffNoNewStart`). A join noted in a session
  defeats every later deadline claim on it (`RadioProtocol.JoinDefeatsDeadline`).

## Model

| member | source | states |
|---|---|---|
| TileGrid.AxisStarts | os-base/conecsa_common/tiling.py:109-122 | origins are multiples of the stride, 1 + ceil((length - tile) / stride) of them on a longer axis, the last one flush with the edge |
| TileGrid.StartsLayout | os-base/conecsa_common/tiling.py:109-122 | origins strictly increase by at most the stride, start at 0, end flush, and every tile is inside the axis |
| TileGrid.AxisCovered | os-base/conecsa_common/tiling.py:109-122 | every pixel of the axis lies in a tile |
| TileGrid.TileGridFor | os-base/conecsa_common/tiling.py:125-164 | rejects exactly the invalid requests; otherwise the row-major product of the two axes, with the full frame last when asked for |
| TileGrid.RowMajor | os-base/conecsa_common/tiling.py:147-164 | tile number j times the columns plus i is the one at column i of row j, as large as the frame lets it be |
| TileGrid.NeighboursOverlap | os-base/conecsa_common/tiling.py:134-153 | neighbours overlap by the requested share of the tile to the nearest pixel, ties to even, or by all but one pixel where that is the whole tile; only the last may overlap more |
| TileGrid.GridCoversFrame | os-base/conecsa_common/tiling.py:125-164 | all tiles are proper and inside the frame, and cover every pixel |
| TileGrid.SmallBoxWhole | inference-service/api/model_manager.py:125-130 | a box in the frame no longer than the nominal overlap on either side is whole in some tile, when the stride honours the overlap |
| TileGrid.HalfPixelBoxCut | os-base/conecsa_common/tiling.py:125-164 | otherwise some box of positive area that small is cut by every tile |
| TileGrid.SmallBoxesWholeExactly | inference-service/api/model_manager.py:125-130 | the small-object promise holds for all boxes of positive area if and only if the stride honours the overlap |
| TileGrid.AutoTwoColumns | os-base/conecsa_common/tiling.py:93-106 | an automatic tile gives a landscape frame one row, of two columns exactly when the rest fits one stride |
| TileGrid.WideFrameTwoTiles | os-base/conecsa_common/tiling.py:93-106 | every exact 16:9 frame gives two tiles at overlap 0.2, whatever its pixel count |
| TileLabels.VisibleMeansTouch | os-base/conecsa_common/tiling.py:172-186 | a box has a positive visible fraction exactly when it overlaps the tile with positive area |
| TileLabels.VisibleMeaning | os-base/conecsa_common/tiling.py:172-186 | the visible fraction is the counted area of the box inside the tile over that of the whole box |
| TileLabels.ClippedExactly | os-base/conecsa_common/tiling.py:172-186 | the clipped box, moved back, has exactly the points of the box inside the tile |
| TileLabels.ClippedInside | os-base/conecsa_common/tiling.py:172-186 | the clipped box is inside the tile and, moved back, inside the box |
| TileLabels.VisibleAtLeastOnce | os-base/conecsa_common/tiling.py:125-186 | over a grid's tiles the visible fractions of a box in the frame add up to at least 1 |
| TileLabels.RowRoundTrip | os-base/conecsa_common/tiling.py:218-225 | a label row read back gives the box it was written for, before it is printed |
| TileLabels.PrintedRowClose | os-base/conecsa_common/tiling.py:218-225 | printed with six decimals, it reads back within three quarters of a millionth of the tile's side |
| TileLabels.RowNormalized | os-base/conecsa_common/tiling.py:218-225 | every number of a row is a share of the tile's own size, and the box it gives is inside the tile |
| TileLabels.TileLabelRows | os-base/conecsa_common/tiling.py:189-226 | the loop's rows and touched count are those of the whole label list; bad arguments are told apart |
| TileLabels.RowsExactly | os-base/conecsa_common/tiling.py:189-226 | a row is written exactly for the labels visible enough in the tile |
| TileLabels.TouchedMeaning | os-base/conecsa_common/tiling.py:189-226 | touched is 0 exactly when no label is visible, and bounds the rows |
| TileLabels.TouchedCounted | os-base/conecsa_common/tiling.py:189-226 | touched is the number of labels the tile sees anything of |
| TileLabels.RowsCounted | os-base/conecsa_common/tiling.py:189-226 | there is one row for each label the tile sees enough of |
| TileSplit.TileSplitStats.Add | training-service/service/tile_split.py:65-68 | adds every counter of the other instance, also of itself |
| TileSplit.MaterializeTiles | training-service/service/tile_split.py:83-163 | exactly which inputs are refused or kept whole; otherwise the crops of the whole grid, and every counter as the crops written and the labels seen give it |
| TileSplit.CropWritten | training-service/service/tile_split.py:133-162 | a tile's crop is written, with its rows, exactly when the tile is not skipped |
| TileSplit.WrittenMeaning | training-service/service/tile_split.py:115-162 | a tile is written exactly when it sees enough of some label or nothing of any |
| TileSplit.BackgroundIsEmpty | training-service/service/tile_split.py:148-161 | a crop written without labels shows no part of any object |
| TileSplit.EveryLabelWritten | training-service/service/tile_split.py:115-163 | when tile count times minimum visibility is at most 1, every label in the frame has its row in some crop |
| TileSplit.LabelWrittenIff | training-service/service/tile_split.py:115-163 | a label has its row in a crop that sees enough of it if and only if some tile sees enough of it |
| TileSplit.WideLabelLost | training-service/service/tile_split.py:115-163 | beyond that bound a label filling the frame can be in no crop |
| TileSplit.CountsConserved | training-service/service/tile_split.py:55-63 | tiles and skipped add up to the grid, labels and fragments to what was touched; labels and background are those of the crops written |
| BoxMerge.MergeTiles | os-base/conecsa_common/tiling.py:275-321 | errors first; otherwise the greedy suppression set, by falling score with ties in input order; below threshold 1 only the first of equal boxes can be in it |
| BoxArea.IouMeaning | os-base/conecsa_common/tiling.py:252-272 | IoU of proper boxes is the counted area of what they share over that of what either covers |
| BoxArea.IouRange | os-base/conecsa_common/tiling.py:252-272 | it lies in 0..1, is 1 exactly for equal boxes and 0 exactly for boxes without a common point |
| BoxArea.IouFlat | os-base/conecsa_common/tiling.py:252-272 | a box without area overlaps nothing |
| BoxMerge.ConflictMeaning | os-base/conecsa_common/tiling.py:299-321 | proper boxes conflict exactly when they share more than that part of what either covers, and their classes agree where classes matter |
| BoxMerge.TwinDropped | os-base/conecsa_common/tiling.py:275-321 | of equal boxes only the first can survive any threshold below 1 |
| BoxMerge.ClassAlone | os-base/conecsa_common/tiling.py:300-304 | when classes matter, what is kept of a class is what merging that class alone keeps |
| BoxMerge.Suppress | os-base/conecsa_common/tiling.py:306-321 | the in-place loop keeps a box exactly when no kept box ahead of it conflicts with it |
| BoxMerge.MergeUnique | os-base/conecsa_common/tiling.py:275-321 | that description has one solution |
| BoxMerge.KeptAndDropped | os-base/conecsa_common/tiling.py:275-321 | no two kept boxes conflict; each dropped box has a kept box ahead of it that conflicts |
| BoxMerge.MergeIdempotent | os-base/conecsa_common/tiling.py:275-321 | merging the kept set again keeps all of it in order |
| StableOrder.ArgsortIsOrder | os-base/conecsa_common/tiling.py:306 | the processing order lists every index once by falling score, ties in input order |
| StableOrder.OrderUnique | os-base/conecsa_common/tiling.py:306 | there is only one such order, so no result depends on how it is sorted |
| BoxArea.TileOverlapMeaning | os-base/conecsa_common/tiling.py:324-330 | two tiles share exactly the points of their overlap rectangle |
| BoxArea.TouchesMeaning | os-base/conecsa_common/tiling.py:422-446 | a proper box touches the rectangle exactly when they have a point in common |
| BoxArea.BandIosMeaning | os-base/conecsa_common/tiling.py:447-459 | band IoS is the counted area common to the two parts inside the rectangle over that of the smaller part, 0 when that is empty |
| BoxArea.BandIosOfParts | os-base/conecsa_common/tiling.py:350-361 | it sees nothing of a box outside the rectangle |
| FragmentMerge.MatchMeaning | os-base/conecsa_common/tiling.py:333-361 | the pairwise rule in counted areas: one class, two tiles, a point of each box in both tiles, and enough shared by the boxes or by the parts both tiles show |
| FragmentMerge.SamePartMatches | os-base/conecsa_common/tiling.py:350-361 | fragments of one class from different tiles that cover the same part of the shared band match, however long they are outside it |
| FragmentMerge.OneObjectOneGroup | os-base/conecsa_common/tiling.py:333-372 | the fragments of one object, each its part inside its tile and sharing part of it with the next, come back as one group whatever their scores |
| FragmentMerge.MatchesSymmetric | os-base/conecsa_common/tiling.py:422-464 | the match rule is symmetric |
| FragmentMerge.FragmentMatches | os-base/conecsa_common/tiling.py:422-464 | the table filled tile pair by tile pair equals the pointwise rule for every two fragments |
| FragmentMerge.PlaceOne | os-base/conecsa_common/tiling.py:392-418 | the in-place walk over the groups equals the recursive placement |
| FragmentMerge.MergeTilesGrouped | os-base/conecsa_common/tiling.py:333-419 | errors first; otherwise a correct grouping of all fragments, led and ordered by score with ties by input; one object cut by its tiles gives one group |
| FragmentMerge.GroupOneClass | os-base/conecsa_common/tiling.py:422-464 | all members of a connected group have one class |
| FragmentGroups.PassPartitions | os-base/conecsa_common/tiling.py:387-419 | after any number of placements the groups hold exactly the fragments placed, each once |
| FragmentGroups.PassOnePerTile | os-base/conecsa_common/tiling.py:387-419 | no group ever holds two fragments of one tile |
| FragmentGroups.PassConnected | os-base/conecsa_common/tiling.py:387-419 | every group stays connected under the match relation, also when groups join |
| FragmentGroups.ConnectedLinks | os-base/conecsa_common/tiling.py:333-419 | in a connected group a chain of matches inside it links any two members |
| FragmentGroups.PassMaximal | os-base/conecsa_common/tiling.py:387-419 | at every moment two groups with matching members share a tile, so no legal join is left undone |
| FragmentGroups.PlaceJoinsFirst | os-base/conecsa_common/tiling.py:363-406 | a fragment joins the first group it matches that holds none of its tile, and starts one at the end when there is none |
| FragmentGroups.PassRanked | os-base/conecsa_common/tiling.py:387-419 | each group starts with its best member and groups follow that member's order |
| FragmentGroups.GroupingCorrect | os-base/conecsa_common/tiling.py:333-419 | for every score order the result is a maximal, ranked partition into connected groups with one member a tile |
| ProcessedRing.NoTornFrame | os-base/conecsa_shm/processed_ring.py:87-185 | in every interleaving a returned frame is exactly what was published under its number, which is above the caller's |
| ProcessedRing.OpenWindowHides | os-base/conecsa_shm/processed_ring.py:155-185 | while a publication is open no reader step returns a frame |
| ProcessedRing.FailureStaysHidden | os-base/conecsa_shm/processed_ring.py:97-108 | a publish that fails midway adds nothing and leaves the window open |
| ProcessedRing.PublishRepairs | os-base/conecsa_shm/processed_ring.py:97-106 | the next publish closes the window under a fresh even number with its own bytes |
| ProcessedRing.QuietReadReturns | os-base/conecsa_shm/processed_ring.py:155-185 | a call between publications returns the newest frame it does not know |
| ProcessedRing.PublishedIsReadable | os-base/conecsa_shm/processed_ring.py:87-185 | a frame published after any history, failures included, reaches the next undisturbed caller |
| ProcessedRing.OpenWindowOutlasted | os-base/conecsa_shm/processed_ring.py:155-185 | a call that meets an open window up to three times still returns the frame published when it closes; meeting it four times it gives up |
| ProcessedRing.OvertakenReadsAgain | os-base/conecsa_shm/processed_ring.py:155-185 | a copy the writer has overtaken is thrown away and the newer frame returned while a try is left |
| ProcessedRing.PublishThenCall | os-base/conecsa_shm/processed_ring.py:87-185 | after any events on a fresh ring, a publish run to its end and then a call return that frame under the next number |
| ProcessedRing.PublicationSparesSlot | os-base/conecsa_shm/processed_ring.py:90-106 | a publication leaves the slot of the frame before it alone and ends with the other slot active |
| CameraRing.OnlyWholeFrames | os-base/conecsa_shm/camera_ring.py:186-244 | over every interleaving of calls sharing a reader and of producer restarts: a frame handed out while the attach generation stayed is a published one, whole, with its own dimensions; every number is above its caller's last |
| CameraRing.NumberNamesOneFrame | os-base/conecsa_shm/camera_ring.py:145-168 | over any number of recreations one number never stands for two frames, when besides no call was between dropping and renumbering as it was made |
| CameraRing.NewFramesPass | os-base/conecsa_shm/camera_ring.py:145-168 | after a recreation every new frame's number is above all such numbers handed out |
| CameraRing.FedBackIncreases | os-base/conecsa_shm/camera_ring.py:186-244 | a caller passing back its last number sees strictly increasing numbers, whatever the others do |
| CameraRing.ProducerStepInv | webcam-server/src/webcam_server/shm.rs:243-280 | every step of the producer's publication keeps segments and history consistent |
| CameraRuns.PublicationShows | webcam-server/src/webcam_server/shm.rs:243-280 | a publication that fits ends with the segment showing that frame under the next even number, and adds just it to the history |
| CameraRuns.QuietCall | os-base/conecsa_shm/camera_ring.py:186-244 | an undisturbed call hands out the newest frame if and only if its number is above the caller's last one, also when it has to remap first |
| CameraRuns.OpenWindowOutlasted | os-base/conecsa_shm/camera_ring.py:199-205 | a call that meets the window open up to three times is still there to read |
| CameraRuns.FourthTimeGivesUp | os-base/conecsa_shm/camera_ring.py:199-205 | meeting it a fourth time a call ends and hands out nothing |
| CameraRuns.LaterTryReturns | os-base/conecsa_shm/camera_ring.py:199-240 | whichever try it is on, it then hands out the frame just published |
| CameraRuns.RestartIsSeen | os-base/conecsa_shm/camera_ring.py:145-168 | the first frame after a restart reaches every caller holding a number of this reader, under a higher one |
| CameraRuns.OneAtATimeTrusted | os-base/conecsa_shm/camera_ring.py:186-244 | when no call begins while another caller's is under way every frame handed out meets both conditions, through every restart |
| CameraRuns.TornAcrossRemap | api-gateway/gateway/media.py:38-40 | a run of two callers and one restart in which bytes are returned that were never published |
| CameraRuns.NumberUsedTwice | os-base/conecsa_shm/camera_ring.py:164-168 | a run in which one number is given to a frame of the old segment and to one of the new |
| CameraRuns.WholeIffOneCaller | api-gateway/gateway/media.py:38-40 | over all runs, restarts included, everything handed out was published if and only if one caller uses the reader |
| CameraRuns.NumbersIffOneCaller | api-gateway/gateway/media.py:38-40 | and no number is given to two frames under exactly the same condition |
| RadioProtocol.OneClaimHolder | os-base/agent/ap_agent.py:422-452 | in every interleaving at most one thread holds the transition claim, and the flag is then set |
| RadioProtocol.WifiChangesAlone | os-base/agent/network_agent.py:59-76 | a Wi-Fi change runs only on a station and never beside a start body, a teardown or another change |
| RadioProtocol.DiskNeverAccessPoint | os-base/agent/wpa.py:277-290 | in every run the supplicant's file holds no access-point block |
| RadioProtocol.DiskOnlySaved | os-base/agent/wpa.py:277-290 | in every run the file changes only by a save carried out after every listed block was looked at, and is then the live table |
| RadioProtocol.JoinDefeatsDeadline | os-base/agent/ap_agent.py:429-441 | after a noted join no deadline claims that session |
| RadioRuns.NoteIsOnRecord | os-base/agent/ap_agent.py:534-540 | in every interleaving, once a station's note has finished in the session it was called in, that session's join or a stop of it is on record |
| RadioRuns.NoteAlone | os-base/agent/ap_agent.py:534-540 | left to itself on an unjoined access point a note joins it and disarms its deadline |
| RadioRuns.JoinKeepsAccessPoint | os-base/agent/ap_agent.py:429-441 | from then on, whatever follows until another start commits, no deadline claims a stop |
| RadioProtocol.NoDeadlock | os-base/agent/ap_agent.py:106-109 | while a thread is unfinished, some thread can move on |
| RadioProtocol.EverythingReleased | os-base/agent/ap_agent.py:216-220 | when all threads have finished, both locks and the claim are free |
| RadioProtocol.StartAlone | os-base/agent/ap_agent.py:200-301 | an undisturbed start whose commands work ends with the access point active and its deadline armed |
| RadioProtocol.StopAlone | os-base/agent/ap_agent.py:422-473 | an undisturbed stop ends as a station with everything released |
| RadioRuns.StartRaises | os-base/agent/ap_agent.py:200-301 | an undisturbed start leaves the commands it sent carried out and the access point active under the next session |
| RadioRuns.StartFails | os-base/agent/ap_agent.py:200-221 | a start whose body fails leaves a station with everything released and no session begun |
| RadioRuns.StartRefused | os-base/agent/ap_agent.py:222-229 | with the access point up or in transition a start and a Wi-Fi change are refused and change nothing |
| RadioRuns.StopRefused | os-base/agent/ap_agent.py:436-441 | a stop is refused during another transition |
| RadioRuns.DeadlineAlone | os-base/agent/ap_agent.py:528-532 | an undisturbed deadline stops an unjoined access point |
| RadioRuns.StopTearsDown | os-base/agent/ap_agent.py:462-503 | an undisturbed stop leaves its removals and reloads carried out |
| RadioRuns.WifiAlone | os-base/agent/network_agent.py:59-76 | an undisturbed Wi-Fi change on a station leaves its commands carried out and the file equal to the live table without access points |
| RadioRuns.NoStopUnasked | os-base/agent/ap_agent.py:422-441 | in a run without stop calls every claim is a deadline's |
| RadioRuns.NoJoinUnasked | os-base/agent/ap_agent.py:534-540 | in a run without a station's event no join is noted |
| RadioProtocol.StaleDeadline | os-base/agent/ap_agent.py:517-532 | a run in which the first session's deadline stops the second session |
| RadioProtocol.ClaimsOwnIffArmed | os-base/agent/ap_agent.py:422-452 | a deadline's claim is for its own session if and only if the timer is armed for that session just before |
| RadioProtocol.ClaimsOwnIffNoNewStart | os-base/agent/ap_agent.py:517-532 | in every run, if and only if no later session had begun before the claim |
| RadioProtocol.NoForeignClaim | os-base/agent/ap_agent.py:517-532 | from an armed timer on, every claim is for that session until a start commits |
| WifiConfig.Wpa.SaveConfig | os-base/agent/wpa.py:277-290 | succeeds exactly when every mode is read, every access point dropped and SAVE_CONFIG answered; the file becomes the blocks that are no access points exactly when that command is reached and carried out |
| WifiConfig.Wpa.EnableAll | os-base/agent/wpa.py:299-312 | enables exactly the networks whose mode was read and whose ENABLE was carried out, never an access point, and changes nothing else |
| WifiConfig.Wpa.PreferNetwork | os-base/agent/network_agent.py:414-426 | the chosen network is strictly highest when the command was carried out; without it nothing changes |
| WifiConfig.Wpa.Connect | os-base/agent/network_agent.py:355-434 | succeeds exactly when every command up to association is answered and the station associates; a failure leaves the file, and the live table equal to it once the reload is carried out; a success writes the file exactly when the saving commands get through, keeping the others and preferring the chosen one exactly as stated above; the saved block has the name asked for and, field by field, the password given, none for a new open network, or a known one's own credentials |
| WifiConfig.Wpa.Forget | os-base/agent/network_agent.py:460-473 | removes exactly that network, and from the file exactly when the save is carried out; says success exactly when all was answered |
| WifiConfig.Wpa.Rollback | os-base/agent/ap_agent.py:475-503 | never touches the file; the live table is the file's when the reload is carried out, else what the removals carried out leave |
| WifiConfig.Wpa.StartAccessPoint | os-base/agent/ap_agent.py:259-289 | succeeds exactly when all its commands are answered and the radio becomes one: then its block is the enabled one beside untouched networks; a failure rolls back; the file is never touched |
| WifiConfig.SavedFrom | os-base/agent/network_agent.py:393-401 | what the saved file means relative to the networks before the connect |
| WifiConfig.FaultlessConnect | os-base/agent/network_agent.py:355-434 | with no fault a connect is saved, the chosen network strictly preferred and every network enabled |
| QueueTables.TrimLongest | os-base/conecsa_common/bounded_sqlite.py:286-307 | eviction leaves the longest suffix within both caps, or the newest row alone |
| QueueTables.AckPrefix | os-base/conecsa_common/bounded_sqlite.py:171-197 | acknowledging a page removes exactly it |
| QueueTables.SplitByName | os-base/conecsa_common/bounded_sqlite.py:182-192 | count and bytes of the named rows plus those of the rest are the table's |
| QueueTables.WithoutTwice | os-base/conecsa_common/bounded_sqlite.py:179-190 | deleting in chunks, duplicates across chunks included, is deleting all at once |
| QueueTables.AckIdempotent | os-base/conecsa_common/bounded_sqlite.py:171-172 | acknowledging again changes nothing |
| QueueTables.PageStops | os-base/conecsa_common/bounded_sqlite.py:149-160 | once a row is refused no longer prefix is allowed |
| QueueTables.PageUnique | os-base/conecsa_common/bounded_sqlite.py:129-169 | table, limit and cap determine the page |
| QueueTables.PageLenIsPage | os-base/conecsa_common/bounded_sqlite.py:144-160 | the cursor loop's stopping row gives that page |
| QueueTables.CutAt | os-base/conecsa_common/bounded_sqlite.py:286-307 | trimming drops the first rows, and a shorter cut is exactly one still over a cap, so the batch loop stops where trimming does |
| BoundedQueue.Queue.constructor | os-base/conecsa_common/bounded_sqlite.py:60-79 | connects exactly when an opening succeeds, on the table found or a fresh one; else cools down |
| BoundedQueue.Queue.Open | os-base/conecsa_common/bounded_sqlite.py:201-254 | which failing step gives which outcome; a database that cannot be opened is set aside whole, and the counters are reloaded |
| BoundedQueue.Queue.HandleDbError | os-base/conecsa_common/bounded_sqlite.py:274-284 | uncommitted work is gone; the counters are right again exactly when the reopening succeeds, else the queue cools down |
| BoundedQueue.Queue.EvictOverCaps | os-base/conecsa_common/bounded_sqlite.py:286-310 | ends with exactly the trimmed table, exactly when none of the batches' steps it needs and no commit raises; else nothing is committed |
| BoundedQueue.Queue.Record | api-gateway/gateway/audit.py:75-104 | exactly when it is skipped, carried out, recovered or raises; carried out, the row is appended and the oldest trimmed, every record accounted for |
| BoundedQueue.Queue.Ack | os-base/conecsa_common/bounded_sqlite.py:171-197 | exactly when it is carried out: then exactly the named rows are gone and counted; else nothing is deleted, and the number returned is that of the chunks processed |
| BoundedQueue.Queue.ListBacklog | os-base/conecsa_common/bounded_sqlite.py:129-169 | exactly when it is carried out: then the oldest rows, as many as asked for, 25 by default, between 1 and 200, fewer only at the end of the table or at the byte cap; and the true pending count |
| BoundedQueue.Queue.Drain | os-base/conecsa_common/bounded_sqlite.py:13-14 | always terminates with a prefix confirmed in recording order, the rest still stored unless the file was quarantined; finishes the whole queue when none of the operations it can need is faulted |
| BoundedQueue.QuietRuns | os-base/conecsa_common/bounded_sqlite.py:201-310 | without faults every operation is carried out |
| BoundedQueue.RecordCanRaise | api-gateway/gateway/audit.py:75-104 | a queue past its cooldown whose directory cannot be made raises from record |
| BoundedQueue.AckOvercounts | os-base/conecsa_common/bounded_sqlite.py:171-197 | an acknowledgement whose commit raises returns 1 and leaves the row |
| EventBus.PushKeepsNewest | os-base/conecsa_common/events.py:57-71 | the bounded buffer holds exactly the newest published versions |
| EventBus.Bus.Publish | os-base/conecsa_common/events.py:51-71 | the next version, appended to the history |
| EventBus.Bus.PublishStats | os-base/conecsa_common/events.py:73-78 | a new stats version and value; the replay buffer is untouched |
| EventBus.Bus.TakeSnapshot | os-base/conecsa_common/events.py:80-83 | the version and a snapshot of it |
| EventBus.Bus.WaitForChanges | os-base/conecsa_common/events.py:85-124 | exactly the missing invalidations while they are buffered, else one snapshot; stats only when they moved |
| EventBus.Bus.WaitForChangesGateway | api-gateway/gateway/events.py:78-110 | the buffered part of the gap, a snapshot only when there is none |
| EventBus.GatewaySameIffGapFits | api-gateway/gateway/events.py:97-103 | the two buses answer alike if and only if the gap fits the buffer or nothing is buffered |
| EventBus.GatewaySkips | api-gateway/gateway/events.py:97-103 | otherwise the evicted versions are in no message and under no snapshot |
| EventBus.NoInvalidationLost | inference-service/api/inference_grpc.py:324-337 | over any interleaving every version up to the subscriber's was delivered, itself or under a newer snapshot, in strictly increasing order, and the versions are the bodies published in order |
| EventBus.PollCatchesUp | os-base/conecsa_common/events.py:85-124 | a poll leaves no published version outstanding |
| DatasetLabels.RemovalKeepsMeaning | training-service/service/dataset_service.py:838-876 | removing a class takes exactly its labels; every other label keeps its name |
| DatasetLabels.RemovedEverywhere | training-service/service/dataset_service.py:838-876 | so for every image across the whole removal |
| DatasetLabels.BrokenRemovalReads | training-service/service/dataset_service.py:850-875 | a file rewritten by a removal that broke off reads right if and only if it held no id above the class |
| DatasetLabels.Dataset.AddClass | training-service/service/dataset_service.py:812-822 | refused exactly on a frozen dataset or for an unacceptable name or one in the list, folded for faces; broken exactly when the list's write raises; else appended, people stay distinct |
| DatasetLabels.Dataset.RenameClass | training-service/service/dataset_service.py:824-836 | likewise; when done, labels of the class read the new name, all others what they read before |
| DatasetLabels.Dataset.RemoveClass | training-service/service/dataset_service.py:838-876 | done exactly when every file's write and the list's succeed; else exactly the files written before the fault are rewritten, and ids are still in range |
| DatasetLabels.Dataset.SetLabels | training-service/service/dataset_service.py:702-736 | refused exactly for an invalid request, broken exactly when its size read or write raises; otherwise replaces that image's labels and nothing else |
| DatasetLabels.Dataset.AddLabeledImage | training-service/service/dataset_service.py:385-443 | done exactly when it is welcome and no step raises: missing names join the list and the stored rows read exactly as requested; others are untouched; what each fault leaves |
| DatasetLabels.PhotoKeepsPeopleIff | training-service/service/dataset_service.py:415-418 | people stay distinct if and only if the name is listed or folds to a new key |
| DatasetLabels.TwoEntriesOnePerson | training-service/service/dataset_service.py:804-810 | a photo of "alice" beside the class "Alice" |
| DatasetRegistry.HiddenNames | training-service/service/dataset_registry.py:90-104 | no tombstone or staging name is ever scanned, and the sweep picks only tombstones |
| DatasetRegistry.RestartRegisters | training-service/service/dataset_registry.py:45-104 | after any crashes a restart registers exactly the datasets saved and not tombstoned since |
| DatasetRegistry.TombstonedReturnsIffSavedLate | training-service/service/dataset_registry.py:199-229 | a tombstoned dataset is registered again if and only if a metadata save came after its tombstone |
| DatasetRegistry.OnlyFinishedRegistered | training-service/service/dataset_registry.py:153-167 | a registered dataset always has its directory and metadata; a half-made or staged one is never registered |
| DatasetRegistry.DeletedForGood | training-service/service/dataset_registry.py:199-238 | without a metadata save in flight a deleted dataset never comes back, whatever follows |
| DatasetRegistry.LateSaveResurrects | training-service/service/dataset_registry.py:169-174 | with one in flight its write, a crash and the next scan do |
| DatasetRegistry.DeletedReturnsIff | training-service/service/dataset_registry.py:169-238 | of any run from a start-up: after a deletion some continuation brings the dataset back if and only if a metadata save of it was in flight |
| DatasetRegistry.MigrationStrands | training-service/service/dataset_registry.py:58-71 | a crash inside the migration loses the legacy dataset from the registry for good |
| DatasetRegistry.FrozenNeverDeleted | training-service/service/dataset_registry.py:176-217 | a frozen dataset stays registered with its metadata, and a delete of it changes nothing |
| DatasetRegistry.OneHolder | training-service/service/dataset_registry.py:176-197 | two jobs never hold the same freeze |
| RegistryRuns.FreezeLasts | training-service/service/dataset_registry.py:176-192 | a freeze granted to a job lasts through everything the others do until that job releases it or the process restarts |
| RegistryRuns.ReleaseFrees | training-service/service/dataset_registry.py:194-217 | its release lets any job freeze the dataset, or a delete take it |
| RegistryRuns.CreationRegisters | training-service/service/dataset_registry.py:153-167 | an undisturbed creation saves and registers its dataset |
| RegistryRuns.ImportRegisters | training-service/service/dataset_registry.py:240-271 | an undisturbed import publishes, saves and registers its dataset and leaves no staging directory |
| RegistryRuns.FailedImportLeavesNothing | training-service/service/dataset_registry.py:240-271 | one that fails registers nothing, and leaves its staging directory exactly when it cannot clean up |
| RegistryRuns.DeletionRemoves | training-service/service/dataset_registry.py:199-238 | an undisturbed deletion removes the dataset from registry and disk, tombstone included |
| RegistryRuns.LeftoverSwept | training-service/service/dataset_registry.py:73-88 | what a deletion could not remove is out of the registry at once and swept at the next start |
| RegistryRuns.RenameSaves | training-service/service/dataset_registry.py:169-174 | an undisturbed rename saves the metadata |
| RegistryRuns.MigrationRegisters | training-service/service/dataset_registry.py:58-107 | an undisturbed migration and scan register the legacy dataset |
| RegistryRuns.CrashLeavesDirectory | training-service/service/dataset_registry.py:73-107 | a crash inside a creation leaves a directory no scan registers; a staging directory is not swept either |
| RegistryRuns.LockExcludes | training-service/service/dataset_registry.py:199-238 | while a deletion is inside the lock, nothing else but a crash changes what is registered, frozen or held |
| DatasetSplits.ShardsPartition | training-service/service/dataset_service.py:1063-1068 | every image is in exactly one shard of a seed |
| DatasetSplits.ShardSizes | training-service/service/dataset_service.py:1063-1068 | shard sizes differ by at most one |
| DatasetSplits.ShardsIgnoreListing | training-service/service/dataset_service.py:1065-1067 | shards depend on the set of images and the seed, not on the listing order |
| DatasetSplits.FoldersCoverIff | training-service/service/dataset_service.py:1069-1110 | the written classification shards cover the dataset if and only if every image has a class |
| DatasetSplits.FoldersUneven | training-service/service/dataset_service.py:1050-1053 | four images, two without a class, give written shards of two and none |
| ShardBalance.FoldersEvenIff | training-service/service/dataset_service.py:1050-1110 | for every image set and shard count, the written shards differ by at most one image for every shuffle if and only if the counts meet the condition stated above |
| ShardBalance.UnevenSomewhere | training-service/service/dataset_service.py:1063-1068 | where the condition fails some shuffle gives two shards two images apart |
| ShardBalance.Unshuffle | training-service/service/dataset_service.py:1065-1067 | the shuffle reaches every order of the images |
| DatasetSplits.Split | training-service/service/dataset_service.py:1147-1153 | train and validation together are the shuffled images; validation has its share of them to the nearest whole, ties to even, but leaves at least one image on either side from two on |
| DatasetSplits.SplitDisjoint | training-service/service/dataset_service.py:1147-1153 | each image is in exactly one of the two |
| DatasetSplits.BuildSplit | training-service/service/dataset_service.py:1137-1153 | a split of exactly the labelled images, refused when there are none |
| DatasetSplits.BuildClassifySplit | training-service/service/dataset_service.py:1264-1297 | every class is split on its own; refused unless two classes have two images |
| Base64Url.GatewayRoundTrip | api-gateway/gateway/flow_token.py:41-47 | every byte string decodes back after its padding was stripped |
| Base64Url.EditorRoundTrip | flow/admin-token.js:21-23 | and on the editor's side |
| Base64Url.EncodedAlphabet | api-gateway/gateway/flow_token.py:41-42 | the encoding holds neither padding nor a dot |
| Base64Url.StandardAlphabet | api-gateway/gateway/flow_token.py:41-47 | the letters are those of the URL alphabet of RFC 4648; the readers also take '+' and '/', and nothing else |
| Base64Url.StandardExamples | api-gateway/gateway/flow_token.py:41-42 | the examples of section 10 of RFC 4648, without padding |
| Base64Url.JunkSkipped | api-gateway/gateway/flow_token.py:45-47 | the gateway's reader passes over any other character wherever it stands |
| Base64Url.PaddingMeaning | api-gateway/gateway/flow_token.py:45-47 | padding ends the text where it completes a group of at least two letters, and is passed over before that |
| FlowToken.MintedParts | api-gateway/gateway/flow_token.py:56-69 | a minted token has three parts and decodes on both sides to the user, the role and the end of its life cut to a whole second |
| FlowToken.GatewayAcceptsUntilExpiry | api-gateway/gateway/flow_token.py:72-96 | a minted token is accepted exactly before that second |
| FlowToken.AcceptedForItsLife | api-gateway/gateway/flow_token.py:56-96 | so it is accepted to within a second of its time to live and never beyond |
| FlowToken.GatewayAcceptsExactly | api-gateway/gateway/flow_token.py:72-96 | of all strings exactly the signed ones with a readable, unexpired payload are accepted |
| FlowToken.EditorAgrees | flow/admin-token.js:30-81 | the editor accepts a minted token exactly when the gateway does and the role is one of its three, with that role's permissions |
| FlowToken.EditorAcceptsExactly | flow/admin-token.js:47-81 | of all strings the editor accepts exactly those whose signature, however spelled, decodes to the digest, with a readable, unexpired payload of one of its three roles |
| FlowToken.NothingWithoutSecret | api-gateway/gateway/flow_token.py:56-96 | without a secret nothing is minted and neither side accepts anything |

## Assumptions

- Rings: sequentially consistent memory, counters read and written in one piece, no counter
  wrap-around, and a fresh identity for every created segment.
- Radio: `reconcile` has run; `_lock` sections are as short as written; control commands end (they
  have timeouts). Each thread body may send any of the commands its source sends, in any order.
- Registry: a crash falls between two file operations, and a completed rename stays done.
- Tokens: the digest is a function, and both JSON parsers read back what the gateway dumps.
- Shuffling: the standard shuffle over whatever numbers the generator yields for a seed.

## Left out

- ProcessedRing.NoTornFrame: covers one writer lifetime; a writer restart resets the counter to 0, and a reader holding a higher number then waits.
- CameraRing.OnlyWholeFrames: `open()`, the update of the highest number and the producer's creation of a segment are one step each; a copy torn by a remap stops at the slot's end.
- TileSplit.MaterializeTiles: leaves out the polygon branch, whose clipping is done by an image library, and undecodable images or failed crop writes.
- BoundedQueue.Queue.Open: quarantine file names, log throttling and the second connection attempt leaving a half-open connection are not modelled; a record's byte size is a parameter.
- WifiConfig.Wpa.Connect: the supplicant's text rendering of names is taken as exact, and whether the station reaches the connected state within the timeout is a parameter.
- WifiConfig.Wpa.StartAccessPoint: leaves out networkd files and addresses, channel choice and the fixed security fields of the block.
- RadioProtocol.DiskNeverAccessPoint: a teardown that finds no wireless link returns without rolling back; the live table may then keep its access-point block, which the model allows.
- DatasetLabels.Dataset.SetLabels: what polygon normalisation returns is open except for the classes of the rings; coordinates and trimmed names are judged by parameters.
- DatasetLabels.Dataset.AddClass: a freeze while a mutation is in flight uses another lock, so nothing is claimed about that race.
- DatasetRegistry.RestartRegisters: a power cut that undoes a rename not yet synced, and removals by other programs, are not modelled.
- DatasetSplits.BuildSplit: the files and links written for a split, and its tile crops, are not modelled.
- Deleting and replicating images, covers and counts; gRPC, HTTP, SSE and D-Bus layers; subprocess workers; the user interface.
- Image encoding, letterboxing, tensor decoding and the raster side of polygons.
- Camera configuration and health regions, wired network settings, clock stepping, route tables and role checks.
- Floating-point rounding and not-a-number values: coordinates and scores are exact.
