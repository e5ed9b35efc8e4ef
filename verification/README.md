# Q-Fit shot judging, shot search and result-file handling in Dafny

Q-Fit photographs a carom billiards table, locates the three balls, and
searches for a three-cushion shot by simulating many cue strokes. It reports
the best stroke and files the resulting images per upload. This project
models the parts of that pipeline that are decidable logic over symbols,
strings and integers, and proves properties of them.

- **Carom, Classifier.** The collision callback of both simulators
  (`collision_logger`) is modelled as an explicit per-trial state: the log, the
  last emitted symbol and its frame. The process-wide globals become this
  state. The callback turns contacts (frame, shape type A, shape type B) into
  a cue-relative log over {C, R, W, Y}. It drops a cushion that comes less
  than three frames after an emitted cushion.
- **Legality.** `check_3cushion_score` of both copies. One scan function
  models the v1 loop. A method with the sim6 `break` is proved to agree with
  it. Reasons are an enumeration, with each copy's wording given by
  `Message`.
- **Scoring.** `first_collision_is_object_ball` and `compute_shot_score` with
  the weights of each copy (80/50 in v1, 50/30 in sim6). Also the v1 per-trial
  score tiers and the sim6 power clamp.
- **Grid, Selection, Search.** The shot grids, and the selection
  `max(pool, key=score)`, which returns the first maximum. Also
  `find_direct_path_shot` (v1) and both phases of `adaptive_search` (sim6). The
  physics engine is a parameter `Physics = Shot -> seq<Contact>`. A trial is
  what the classifier makes of the contacts that function returns for the
  shot.
- **Labels.** The `"color x y"` label file. The writer loop of both topview
  scripts and the reader `load_ball_position(s)` of both simulators,
  including Python's `int()` on a token and the stop on a `ValueError`.
- **Topview.** The integer parts of both topview scripts:
  - the corner ordering and destination rectangle of `get_warped_table`;
  - the `[10:-10, 20:-20]` crop, with Python slice bounds;
  - the keys `find_ball`/`find_balls` store, given an abstract detector per
    colour mask;
  - the paste regions and the set of colours painted by
    `place_ball(s)_on_table`, given an abstract texture loader.
- **FileNames, Grouping.** From `fastapi/app/upload_image_check.py`:
  - the rename `f"{current_time}_{idx}_{name}{ext}"` with `os.path.basename`,
    `os.path.splitext` and `os.path.join`;
  - the result-file extension filter;
  - `parse_file_info`, with the regular expression
    `(\d{14})_(\d+)_(.*?)\.(\w+)` under `re.match` semantics;
  - `generate_data_from_folder` over a given folder listing: `sorted`, the
    exclusions, the grouping into an insertion-ordered dict, the field
    precedence and the final pass.
- **Wrappers, Text, OrderedDict.** Supporting modules: `Option`, digit and
  word characters, `str(int)` and `int(str)`, and Python's `dict`. A Python
  `dict` keeps insertion order, and assigning to an existing key keeps its
  position.

The cushion debounce window is measured from the last *emitted* cushion, not
from the last cushion contact. Cushion contacts on frames 10, 11, 12 and 13
therefore log `[C, C]`. Frames 11 and 12 are dropped, and frame 13 is 3 frames
after frame 10, which is not below 3 (`Classifier.RapidCushionGrazes`).

## Model

| member | source | states |
|---|---|---|
| Classifier.Step | qfit/model_src/qfit_simulation_v1.py:191-225 | one callback appends at most one entry and never rewrites the log; which contacts it drops is stated by Classifier.StepDropsOnlyDebouncedCushions |
| Classifier.Classify | server/pymunk_sim6.py:42-80 | the callback run over a trial's contacts holds at most one entry per contact; its content is stated by Classifier.ClassifyInvariant and Classifier.ClassifyDropsOnlyCushions |
| Carom.ObjectBalls | qfit/model_src/qfit_simulation_v1.py:232-235 | exactly two object balls: red and the ball that is not the cue; never a cushion or the cue's own colour |
| Classifier.Resolve | qfit/model_src/qfit_simulation_v1.py:199-213 | no symbol unless one side is the cue type; when side A is the cue the symbol names side B's shape, otherwise side A's; the cue's own colour and unknown types yield nothing |
| Classifier.StepDropsOnlyDebouncedCushions | qfit/model_src/qfit_simulation_v1.py:215-223 | a resolved symbol is dropped exactly when it is a cushion, the last emitted entry is a cushion and fewer than 3 frames separate them; otherwise it is appended with its frame |
| Classifier.ClassifyInvariant | server/pymunk_sim6.py:66-74 | after any contact sequence the bookkeeping names the last emitted symbol and frame, and any two log-adjacent cushions are at least 3 frames apart |
| Classifier.CollisionLogAvoidsCue | server/pymunk_sim6.py:50-64 | the log never holds the cue ball's own colour |
| Classifier.ClassifyDropsOnlyCushions | qfit/model_src/qfit_simulation_v1.py:215-224 | the debounce only removes cushions: the ball symbols of the log are exactly those of the resolved contacts in order, and the log is no longer than the resolved contacts |
| Classifier.RapidCushionGrazes | server/pymunk_sim6.py:67-74 | cushion contacts on frames 10, 11, 12, 13 log [C, C], because the window is measured from the last emitted cushion |
| Legality.Judge | qfit/model_src/qfit_simulation_v1.py:231-262 | the verdict of `check_3cushion_score`; its rules are stated by Legality.JudgeMeetsRules |
| Legality.JudgeMeetsRules | qfit/model_src/qfit_simulation_v1.py:231-262 | legal iff three or more cushions precede the first hit of the second distinct object ball; "short of cushions" iff that hit has fewer; "no object ball" iff none is hit; "one object ball" iff exactly one; the final fallback reason is never returned |
| Legality.JudgeWithBreak | server/pymunk_sim6.py:82-115 | the sim6 loop that breaks once the second object ball is validly hit returns the same verdict as the full scan |
| Legality.LegalLogShape | server/pymunk_sim6.py:92-108 | a legal log holds at least 3 cushions and both object balls, so it has at least 5 symbols |
| Legality.ThreeCushionsThenBothBalls | qfit/model_src/qfit_simulation_v1.py:241-255 | C C C R Y with a white cue is legal |
| Legality.BothBallsWithoutCushions | qfit/model_src/qfit_simulation_v1.py:247-252 | R Y with a white cue is illegal for want of cushions |
| Scoring.HasNonCushion | qfit/model_src/qfit_simulation_v1.py:264-268 | true iff some symbol anywhere in the log is not a cushion |
| Scoring.CushionFirstStillEarnsBonus | qfit/model_src/qfit_simulation_v1.py:264-273 | a log opening with a cushion still earns the object-ball bonus |
| Scoring.ShotScoreCases | qfit/model_src/qfit_simulation_v1.py:270-279 | the score is base + bonus - 2·length when a ball symbol occurs, base - penalty - 2·length otherwise |
| Scoring.ShotScoreDecreasesWithLength | server/pymunk_sim6.py:123-132 | with the same object-ball test, scores differ by twice the difference in length, so a shorter log scores strictly higher |
| Scoring.LegalShotScore | server/pymunk_sim6.py:117-132 | a legal log always earns the bonus |
| Scoring.V1TrialScoreTiers | qfit/model_src/qfit_simulation_v1.py:388-396 | an empty log scores 50; base 150 when the log opens on R or Y, base 100 otherwise; a legal log scores 230 or 180 less twice its length |
| Scoring.WhiteOpeningUsesBaseHundred | qfit/model_src/qfit_simulation_v1.py:389-393 | a log opening with W uses base 100 |
| Scoring.Sim6LegalScore | server/pymunk_sim6.py:256-259 | a legal sim6 trial scores 150 less twice its length |
| Scoring.ClampPower | server/pymunk_sim6.py:202-205 | the power lies in [0, 10], is unchanged inside it, and saturates at each end |
| Selection.FirstMax | server/pymunk_sim6.py:264 | the chosen position holds a maximal score and every earlier one scores strictly less |
| Selection.Best | qfit/model_src/qfit_simulation_v1.py:432-437 | None iff no element is accepted; otherwise the first accepted element of maximal score |
| Selection.PoolMaxIsFirstBest | qfit/model_src/qfit_simulation_v1.py:426-437 | the maximum of the pool built in enumeration order is the first accepted element of greatest score in the full enumeration |
| Selection.FirstBestUnique | server/pymunk_sim6.py:294 | the first maximum of a pool is unique |
| Grid.ProductMembers | qfit/model_src/qfit_simulation_v1.py:416-418 | the nested loops visit exactly the triples drawn from the three ranges |
| Grid.V1GridShape | qfit/model_src/qfit_simulation_v1.py:409-411 | 720 shots: every multiple of 5 degrees below 360, powers 1 to 10, centre offset |
| Grid.CoarseGridShape | server/pymunk_sim6.py:247-249 | 360 shots: every multiple of 10 degrees below 360, powers 1 to 10, centre offset |
| Grid.FineAnglesShape | server/pymunk_sim6.py:269-281 | 13 angles bang-30 to bang+30 in steps of 5, each reduced into [0, 360), including the best angle |
| Grid.FinePowersShape | server/pymunk_sim6.py:270-283 | the fine powers are exactly the integers from max(bpwr-5, 1) to min(bpwr+5, 10), all inside [1, 10] |
| Grid.OffsetsAroundShape | server/pymunk_sim6.py:275-277 | 9 offsets, exactly the 3×3 grid around the best offset |
| Grid.FineGridContainsCentre | server/pymunk_sim6.py:269-284 | the fine grid has 13·powers·9 shots, all with angle in [0, 360) and power in [1, 10], and contains the coarse best shot |
| Grid.FineGrid | server/pymunk_sim6.py:268-284 | the phase-2 grid; Grid.FineGridContainsCentre states its size, its ranges and that it holds the phase-1 shot |
| Grid.FinePowersNearTop | server/pymunk_sim6.py:271-273 | around power 8 the fine powers are 3 to 10 |
| Grid.FineAnglesWrap | server/pymunk_sim6.py:280-281 | around angle 0 the fine angles run from 330 round to 30 |
| Search.PlayShot | server/pymunk_sim6.py:202-234 | a trial's log is what the classifier makes of the engine's contacts for the clamped shot; Search.GridShotsUnclamped states that grid shots reach the engine unchanged |
| Search.GridShotsUnclamped | qfit/model_src/qfit_simulation_v1.py:353-355 | every power of the v1 grid, the coarse grid and any fine grid lies in [1, 10], so the clamp of both copies (and `pw2_clamped`, server/pymunk_sim6.py line 283) leaves it alone and the engine plays the grid's own shot |
| Search.V1Trial | qfit/model_src/qfit_simulation_v1.py:288-398 | a v1 trial: its log, verdict and tiered score, stated by Scoring.V1TrialScoreTiers and Search.V1ResultScore |
| Search.Sim6Trial | server/pymunk_sim6.py:256-259 | a sim6 trial scored with base 100, stated by Scoring.Sim6LegalScore |
| Search.FindDirectPathShot | qfit/model_src/qfit_simulation_v1.py:404-440 | None iff no trial is legal; the first best trial of the preferred pool (legal, opening R or Y) if it is non-empty, else the first best of the backup pool; never an illegal trial |
| Search.V1ResultScore | qfit/model_src/qfit_simulation_v1.py:427-433 | the chosen v1 trial scores 230 or 180 less twice its log length, by pool |
| Search.V1PoolPrefersShortLogs | qfit/model_src/qfit_simulation_v1.py:426-433 | within one v1 pool a trial scores at least as much as another iff its log is no longer |
| Search.WhiteOpeningUnderYellowCueIsBackup | qfit/model_src/qfit_simulation_v1.py:427-430 | a legal trial opening with W goes to the backup pool |
| Search.CoarseBest | server/pymunk_sim6.py:251-264 | phase 1 is None iff no coarse trial is legal, otherwise the first best legal coarse trial |
| Search.Refine | server/pymunk_sim6.py:279-295 | phase 2 returns the phase-1 best unchanged when no fine trial is legal, otherwise the first best legal fine trial, without comparing it to phase 1 |
| Search.FineRetriesBest | server/pymunk_sim6.py:268-288 | the fine grid replays the phase-1 best shot |
| Search.RefineImproves | server/pymunk_sim6.py:290-295 | so phase 2 always has a legal fine trial, and its result is legal, in range, and scores at least the phase-1 best |
| Search.CoarseBestIsOwnTrial | server/pymunk_sim6.py:252-264 | the phase-1 best is a legal, in-range trial of its own shot, scoring at least every legal coarse trial |
| Search.AdaptiveSearch | server/pymunk_sim6.py:241-295 | None iff no coarse trial is legal; otherwise exactly phase 2 applied to the phase-1 best: the first best legal trial of the fine grid around it, which is a trial of its own shot, legal, in range, scoring at least every legal coarse trial and worth 150 less twice its log length |
| Search.Sim6PrefersShortLogs | server/pymunk_sim6.py:256-259 | of two legal sim6 trials, one scores at least the other iff its log is no longer |
| Text.NatToStringRoundTrip | Q_Fit_project/model_src/topview.py:224 | the decimal text of a natural number reads back as that number |
| Text.IntToStringRoundTrip | qfit/model_src/qfit_simulation_v1.py:113 | `int()` of `str(n)` is n, and `str(n)` is a non-empty token without whitespace |
| Text.ParseIntExamples | qfit/model_src/qfit_simulation_v1.py:113 | `int()` accepts a sign and single underscores between digits and rejects other text |
| Labels.Tokens | qfit/model_src/qfit_simulation_v1.py:111 | the whitespace split yields non-empty tokens without whitespace |
| Labels.ApplyDistinct | qfit/model_src/qfit_simulation_v1.py:106-113 | the mapping read has distinct keys |
| Labels.StopDiscardsTheRest | qfit/model_src/qfit_simulation_v1.py:108-118 | a line with a non-integer coordinate ends the reading, keeping exactly the entries before it |
| Labels.DuplicateKeyOverwrites | server/pymunk_sim6.py:28-31 | a later line for the same colour replaces the earlier value in place |
| Labels.LineOutcomes | qfit/model_src/qfit_simulation_v1.py:111-117 | a short line is skipped; a non-integer coordinate stops the reading |
| Labels.ReadOne | qfit/model_src/qfit_simulation_v1.py:111-113 | a written label line reads back as its colour and coordinates |
| Labels.LoadBallPosition | qfit/model_src/qfit_simulation_v1.py:106-118 | a missing file reads as the empty mapping and every result has distinct keys; its lines are read as Labels.LineOutcomes and Labels.StopDiscardsTheRest state |
| Labels.WriteLabels | Q_Fit_project/model_src/topview.py:222-224 | the file is empty iff the mapping is, and otherwise ends with a newline; Labels.LabelRoundTrip states that it reads back |
| Labels.LabelRoundTrip | Q_Fit_project/model_src/topview.py:222-224 | reading back a written label file gives the same mapping, in order, for distinct whitespace-free colour names |
| Topview.UpperLeftIndex | Q_Fit_project/model_src/topview.py:95 | the first corner of least x+y |
| Topview.UpperLeftIsFirst | Q_Fit_project/model_src/topview.py:95 | a first corner with strictly least x+y is the upper-left corner |
| Topview.StartAfterFirst | Q_Fit_project/model_src/topview.py:97-105 | when the side into the upper-left first corner is not the longer one, the warp starts at the second corner and reads the corners cyclically from there |
| Topview.SourceCornersRotate | Q_Fit_project/model_src/topview.py:97-105 | the source corners are the input rotated to start at the start index, hence a permutation |
| Topview.WarpCorners | Q_Fit_project/model_src/topview.py:89-106 | None iff there are no corners; otherwise a permutation of the corners paired with the fixed rectangle (0,0), (0,H-1), (W-1,H-1), (W-1,0) |
| Topview.LongSideBecomesTop | Q_Fit_project/model_src/topview.py:94-106 | the upper-left corner is the first or last source corner, and the side mapped to the top edge is the longer of the upper-left corner's two sides |
| Topview.StartAfterUpperLeft | server/topview.py:93-101 | a table whose side into the upper-left corner is shorter starts at the next corner |
| Topview.SliceBound | Q_Fit_project/model_src/topview.py:111 | a slice bound is clipped into [0, n], and a negative bound counts from the end |
| Topview.Slice | Q_Fit_project/model_src/topview.py:111 | a slice holds consecutive elements from its normalised start and stays inside the sequence |
| Topview.SliceMargins | server/topview.py:107 | `s[m:-m]` removes m elements from each end, or is empty when they overlap |
| Topview.Crop | Q_Fit_project/model_src/topview.py:111 | the `[10:-10, 20:-20]` crop; Topview.CropShape states its size and pixels |
| Topview.CropShape | Q_Fit_project/model_src/topview.py:106-111 | a 420×840 warp crops to 400×800, pixel (i, j) being warped pixel (i+10, j+20) |
| Topview.Record | Q_Fit_project/model_src/topview.py:150-158 | a detection is stored under its key and leaves other keys alone; no detection changes nothing |
| Topview.DetectAll | server/topview.py:122-137 | the mapping has distinct keys, each the key of some mask |
| Topview.DetectAllKeepsLast | server/topview.py:123-136 | each key holds the detection of the last mask for it that found a ball |
| Topview.KeysWithin | Q_Fit_project/model_src/topview.py:114-160 | when every mask's key is allowed, every stored key is allowed |
| Topview.QfitLastDetections | Q_Fit_project/model_src/topview.py:121-158 | red holds the second red range's ball when it finds one, else the merged mask's; white and yellow hold their own |
| Topview.FindBallKeys | Q_Fit_project/model_src/topview.py:155-158 | keys are among red, white and yellow; both red masks store under red, the later one winning |
| Topview.FindBallsKeys | server/topview.py:123-136 | keys are among red, yellow and white, each holding its own mask's detection |
| Topview.ServerLastDetections | server/topview.py:130-136 | each server colour's last detection is its own mask's |
| Topview.BallLabelsRoundTrip | Q_Fit_project/model_src/topview.py:222-224 | any mapping with distinct keys among red, white and yellow is read back exactly from its label file |
| Topview.FindBallLabelsRoundTrip | Q_Fit_project/model_src/topview.py:222-224 | the label file written from the detections reads back as the detections |
| Topview.FindBallsLabelsRoundTrip | server/topview.py:194-196 | the label file written from the detections reads back as the detections |
| Topview.QfitRegion | Q_Fit_project/model_src/topview.py:178-182 | after the clamp the region lies inside the image and is 2·(b//2) high and wide, capped by the image |
| Topview.ServerRegion | server/topview.py:157-158 | the region starts at or after 0, ends within the image and is no larger than the ball |
| Topview.RegionsAgreeInside | server/topview.py:155-158 | for a centre the clamp leaves alone, both copies paste the ball-sized box around the centre |
| Topview.CentreOutside | server/topview.py:157-159 | a centre left of the image gives the server copy a negative-width region, while the other copy clamps it to a full one |
| Topview.QfitPlacement | Q_Fit_project/model_src/topview.py:162-195 | only detected colours with a readable texture are pasted, each in its clamped region |
| Topview.QfitPlacementComplete | Q_Fit_project/model_src/topview.py:165-195 | every detected colour with a readable texture is pasted |
| Topview.QfitPlacementInside | Q_Fit_project/model_src/topview.py:178-182 | every model-side paste region lies inside the image |
| Topview.ServerPlacement | server/topview.py:151-169 | fails iff a detected colour's texture cannot be read; otherwise pastes only listed, detected colours, each in its unclamped region |
| Topview.ServerPlacementComplete | server/topview.py:151-169 | when placement succeeds, every detected colour of the list is pasted |
| Topview.ServerPlacementInside | server/topview.py:155-158 | every server-side region starts at or after 0 and ends within the image, though it may be empty |
| FileNames.Basename | fastapi/app/upload_image_check.py:63 | a suffix of the path containing no '/', preceded by '/' unless it is the whole path: the text after the last '/' |
| FileNames.LastDot | fastapi/app/upload_image_check.py:65 | None iff the name has no '.'; otherwise a '.' with no '.' after it |
| FileNames.Join | fastapi/app/upload_image_check.py:68 | the joined path ends with the name |
| FileNames.SplitName | fastapi/app/upload_image_check.py:65 | name + ext is the input; ext is empty or starts at the last dot, provided a non-dot precedes it |
| FileNames.RenamedFile | fastapi/app/upload_image_check.py:63-67 | the moved file's new name, split from the base name and rejoined; FileNames.RenamedFileKeepsName and FileNames.RenameRoundTrip state that it keeps the whole name and parses back |
| FileNames.RenamedFileKeepsName | fastapi/app/upload_image_check.py:63-67 | the new name is time, "_", idx, "_" and the whole base name |
| FileNames.MovedResultExamples | fastapi/app/upload_image_check.py:98 | the filter ignores case and accepts "txt" without a dot |
| FileNames.LowerIdempotent | fastapi/app/upload_image_check.py:98 | the filter gives the same answer for a name and its lower-cased form |
| FileNames.ResultMoves | fastapi/app/upload_image_check.py:94-107 | exactly the listed files passing the filter are moved, each to its renamed file |
| FileNames.LazyEnd | fastapi/app/upload_image_check.py:118 | the lazy name ends at the first '.' followed by a word character, with no newline before it |
| FileNames.ParseFileInfo | fastapi/app/upload_image_check.py:117-123 | `re.match` of the name pattern; FileNames.ParseSound and FileNames.ParseComplete state what it accepts and returns |
| FileNames.ParseSound | fastapi/app/upload_image_check.py:117-123 | a parse result is a decomposition the pattern accepts, with the shortest name and longest extension |
| FileNames.ParseChosen | fastapi/app/upload_image_check.py:117-123 | the engine's decomposition is what the parser returns |
| FileNames.ParseComplete | fastapi/app/upload_image_check.py:118-122 | a name the pattern accepts at all parses, with the same time and index |
| FileNames.RenameRoundTrip | fastapi/app/upload_image_check.py:104-122 | parsing a new file name gives back time, str(idx), name and the extension without its dot |
| FileNames.DottedNameSplitsEarly | fastapi/app/upload_image_check.py:118 | "…_0_a.b.jpg" parses as name "a" and extension "b" |
| FileNames.TrailingTextIgnored | fastapi/app/upload_image_check.py:118-122 | text after the extension's word characters is ignored |
| FileNames.ShortTimeRejected | fastapi/app/upload_image_check.py:118-123 | a 13-digit time does not parse |
| Grouping.Sort | fastapi/app/upload_image_check.py:141 | the listing is sorted by code point and is a permutation of the input |
| Grouping.SortedUnique | fastapi/app/upload_image_check.py:141 | there is only one sorted permutation, so the sort is `sorted` |
| Grouping.Records | fastapi/app/upload_image_check.py:144-158 | exactly the files that parse with no excluded word in the name become records, each with its parse and joined path |
| Grouping.RecordShape | fastapi/app/upload_image_check.py:149-157 | a record's time has 14 characters and its path is non-empty |
| Grouping.Write | fastapi/app/upload_image_check.py:178-185 | setting a field changes only that field |
| Grouping.AddRecordAt | fastapi/app/upload_image_check.py:166-185 | one loop pass sets the record's field in its key's group and leaves other groups alone; a new group starts empty with the record's index |
| Grouping.AddRecordKeys | fastapi/app/upload_image_check.py:166-170 | a loop pass appends the record's key to the group keys exactly when the key is new |
| Grouping.GroupAll | fastapi/app/upload_image_check.py:163-185 | the grouping loop yields distinct keys; Grouping.GroupKeys, Grouping.GroupFields and Grouping.GroupOrder state its content |
| Grouping.GroupKeys | fastapi/app/upload_image_check.py:163-176 | a key has a group iff some record carries it |
| Grouping.GroupFields | fastapi/app/upload_image_check.py:178-185 | each field of a group holds the last path of that kind among the group's records |
| Grouping.KeyDeterminesIndex | fastapi/app/upload_image_check.py:167 | records with the same key have the same time and index |
| Grouping.GroupIndex | fastapi/app/upload_image_check.py:167-171 | a group's index is the parsed index of every record in it |
| Grouping.GroupOrder | fastapi/app/upload_image_check.py:163-176 | groups appear in order of first appearance of their key |
| Grouping.Finalise | fastapi/app/upload_image_check.py:189-191 | an empty upload path becomes None; nothing else changes |
| Grouping.GenerateData | fastapi/app/upload_image_check.py:129-141 | no result iff the folder does not exist |
| Grouping.PathsComeFromGroupedFiles | fastapi/app/upload_image_check.py:146-158 | every path in a group joins the folder with a listed file that parses, has no excluded word, and whose name selects that field |
| Grouping.RowIsGroup | fastapi/app/upload_image_check.py:188-192 | the final pass leaves every group unchanged |
| Grouping.GroupRows | fastapi/app/upload_image_check.py:163-192 | one row per distinct key in order of first appearance, holding a record's index and the last path of each kind |
| Grouping.GenerateDataRows | fastapi/app/upload_image_check.py:129-194 | the same for the sorted folder listing |

## Left out

- The pymunk physics is left out: bodies, stepping, impulses, velocity decay and the settle test. It is a foreign engine with floating-point dynamics, so a trial is a `Physics` parameter returning the contact sequence.
- The impulse direction and speed (cosine, sine, power/10·200) are floating-point trigonometry and are left out.
- Search.PlayShot: power is an integer, where both copies pass floats. Both searches only pass whole powers 1 to 10. Both copies clamp the power to [0, 10] before the stroke, and Search.GridShotsUnclamped shows the clamp is the identity on every grid power.
- Image processing is left out: HSV masks, contours, moments, the perspective transform, alpha blending and rendering. Detection is an abstract `Detector` per mask; texture loading is an abstract `TextureLoader`; pixels are an abstract type.
- Topview.UpperLeftIndex: side lengths are compared as squared integer distances. The scripts compare floating-point norms of integer corners, which order the same way.
- File and process I/O is left out: `shutil.move`, `os.listdir`, `os.makedirs`, `open`, logging and `print`. A listing is an input sequence, a missing folder is `None`, and a missing label file is `None`.
- The HTTP servers and the scripts' `main` glue are left out. They have no algorithmic content.
- Text.IsDigit: `\d`, `\w` and `int()` are modelled on ASCII only. Python also accepts other Unicode digits and letters.
- Text.Lower: only ASCII letters are lower-cased.
- Labels.LoadBallPosition: "\r\n" is modelled as two line breaks, giving an extra empty line, which the reader skips. Python's universal newlines read it as one.
- Scoring: a cue colour missing from the positions (a `KeyError` before the trial) is not modelled.
- Topview.ServerPlacement: the numpy error that a negative-width region would raise when broadcasting is not modelled. The region itself is.
