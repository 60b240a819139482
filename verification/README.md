# SatellitePlusPlus resolver and judge, modelled in Dafny

This project models the two core components of SatellitePlusPlus.

- **The naive resolver** (`NaiveResolver.cpp`). It plans which satellite
  photographs which image of which collection, and at which turn.
  - Four workers each take every fourth satellite.
  - For every turn, collection and image, a worker captures the image when
    three things hold: it is in range, the camera can slew to it in time
    (`isConflict`), and nobody has taken it yet.
  - A capture writes one record `la lo turn satellite`.
  - After the pass, `checkUncompleteCollections` drops the collections that
    were left incomplete.
  - The output file is the picture count `nbPict` followed by the workers'
    records in worker order.
- **The judge** (`JudgeOutput.cpp`). It reads such an output file.
  - `isValidSyntax` checks the header, the line grammar, the declared count
    and the value ranges.
  - `isValidImages` re-checks every record against the satellite's position
    at its turn.
  - `getImagesTaken` extracts the taken positions.
  - `getScore` adds the points of every collection whose images were all
    taken.

## Modules

The model is written as immutable data and pure functions.

| module | file | what it holds |
|---|---|---|
| `SimData` | `sim_data.dfy` | Satellites, images, collections with their `taken` flags and windows, and shot records. Helpers that only exist in the source as opaque calls (`isInRange`, `moveSatelite`, `getSatPosition`, `getSat`) are the fields of a `Physics` value passed as a parameter. |
| `Text` | `text.dfy` | What the file format needs: `std::to_string`, `std::stoi` (a prefix parse; `None` stands for the exception), `splitStr` on `' '`, the shot-line regular expression, and the record reader. |
| `Geometry` | `geometry.dfy` | `isInTimeStamp`, and `isConflict` as an exact integer comparison. A lemma shows the integer comparison agrees with the source's square-root comparison. |
| `Bookkeeping` | `bookkeeping.dfy` | `resetTakenPictures` and `checkUncompleteCollections`. |
| `NaiveResolver` | `naive_resolver.dfy` | The four nested loops of `threadResolv` as recursive state transformers, and the workers run one after another in index order. |
| `PassProofs` | `pass_proofs.dfy` | What every level of those loops preserves (see below). |
| `Resolution` | `resolution.dfy` | `launchResolution`: one pass, the check, and the output lines. |
| `JudgeOutput` | `judge_output.dfy` | The judge. |
| `RoundTrip` | `round_trip.dfy` | The resolver's file read back by the judge. |

What every loop level preserves (`PassProofs`):

- Flags are only ever set.
- Records are only appended.
- The growth of `nbPict` equals the number of new records, and also the number of newly taken images.
- Every newly taken image has its position among the new records.
- Every record is at an image position.

How the judge reads the file:

- It reads a `Stream`: the file's lines, whether the file ends with a
  newline, a cursor and the fail state of `std::getline`. After the last
  line, a read fails; it leaves the variable unchanged when that line had no
  final newline, and empties it otherwise.
- `clear(); seekg(0)` is `Rewind`.
- An exception that escapes a reader is the outcome `Thrown`.

The workers run one after another in index order. In the source they are
threads that share the collections' `taken` flags and `nbPict` without
synchronisation. Running them in index order is one interleaving of those
threads.

Two behaviours of the code that the model keeps as written:

- **The count bound in `isValidSyntax`.** The comment at
  `JudgeOutput.cpp:28` says the declared number of pictures is bounded by the
  number of pictures of the input. The code bounds it by the number of
  collections. `JudgeOutput.IsValidSyntaxAsWritten` and
  `JudgeOutput.IsValidOutput` keep that bound; the corrected chain is
  `JudgeOutput.IsValidSyntax` and `JudgeOutput.IsValidOutputCorrected` (see
  Findings).
- **The slew budget of `isConflict`.** Whether or not a previous shot exists,
  `NaiveResolver.cpp:52` and `:56` compare the distance with
  `speedRot * (turn - lastShotTurn)`, using the satellite's stored
  `lastShotTurn`. Its initial value comes from the input loader, which is
  not part of this model: the model takes the satellite, `lastShotTurn`
  included, as input. `Geometry.SlewBudget` is that product.

## Model

| member | source | states |
|---|---|---|
| `Geometry.InTimeStampFrom` | Satellite/Satellite/NaiveResolver.cpp:21-32 | The window scan returns true exactly when some window holds the turn. Both window bounds are inclusive. |
| `Geometry.IsConflict` | Satellite/Satellite/NaiveResolver.cpp:37-58 | A conflict needs a negative slew budget or a new relative offset different from the previous one (or from (0,0) before any shot): re-aiming at the previous offset never conflicts. |
| `Geometry.ConflictLaterTurn` | Satellite/Satellite/NaiveResolver.cpp:52-56 | With a non-negative rotation speed, an image without conflict at some turn after the last shot has no conflict at any later turn. |
| `Geometry.ConflictIsEuclidean` | Satellite/Satellite/NaiveResolver.cpp:37-58 | The integer conflict test holds exactly when the Euclidean distance is strictly greater than `speedRot * (turn - lastShotTurn)`. The distance is taken between the new and the previous relative offset, with (0,0) when there is no previous shot. A distance equal to the budget is no conflict. |
| `Bookkeeping.ResetTakenPictures` | Satellite/Satellite/NaiveResolver.cpp:60-77 | Every image of a valid collection becomes untaken, so its taken count is 0. Invalid collections are left exactly as they were. Positions, windows, points and validity never change. |
| `Bookkeeping.ResetForgetsPass` | Satellite/Satellite/NaiveResolver.cpp:60-77 | Two states that differ only in the flags of valid collections reset to the same collections, so the reset erases everything a pass did. |
| `Bookkeeping.AllTaken` | Satellite/Satellite/NaiveResolver.cpp:92-101 | The early-exit scan is true exactly when every image of the collection is taken. |
| `Bookkeeping.CheckUncompleteCollections` | Satellite/Satellite/NaiveResolver.cpp:79-109 | A collection stays valid exactly when it was valid and complete. An invalid one is never revived and nothing else changes. The returned flag is true exactly when some valid collection was incomplete. |
| `Bookkeeping.CheckIsFixpoint` | Satellite/Satellite/NaiveResolver.cpp:79-109 | Checking a second time changes nothing and reports no change, so the pass loop would stop. |
| `NaiveResolver.TryImage` | Satellite/Satellite/NaiveResolver.cpp:136-156 | The image's flag ends up set exactly when it was set or the guard (in range, no conflict, untaken) holds. Every other flag is untouched. A capture appends the record `la lo turn x`, adds one to nbPict, and stores the relative offset and the turn in the satellite. Without a capture the state is unchanged. |
| `NaiveResolver.VisitOrder` | Satellite/Satellite/NaiveResolver.cpp:117 | Worker `start` of `n` visits exactly the satellites `start + k*n` below the satellite count, in ascending order. |
| `PassProofs.TryImageExtends` | Satellite/Satellite/NaiveResolver.cpp:136-156 | A capture extends the ledger by one record at the image's position, one increment and one newly set flag, all in collection j. |
| `PassProofs.ShootImagesExtends` | Satellite/Satellite/NaiveResolver.cpp:136-159 | The image loop only sets flags of collection j. Its new records are by satellite x at this turn. nbPict, the new records and the new flags agree in number. |
| `PassProofs.ShootCollectionsExtends` | Satellite/Satellite/NaiveResolver.cpp:126-162 | The collection loop only sets flags of valid collections whose window holds the turn. The ledger is extended. |
| `PassProofs.TurnsExtends` | Satellite/Satellite/NaiveResolver.cpp:123-166 | A satellite's turn loop writes records by that satellite only, at turns in [turn, maxTurns), in non-decreasing turn order. It only sets flags of valid collections. |
| `PassProofs.RunSatellitesExtends` | Satellite/Satellite/NaiveResolver.cpp:117-175 | A worker's satellites in ascending order: every record is by a visited satellite at a turn of the simulation. Records are ordered by satellite, then turn. The ledger is extended. |
| `NaiveResolver.ThreadResolv` | Satellite/Satellite/NaiveResolver.cpp:111-177 | A worker never changes a collection's positions, windows, points, validity or number of images: only `taken` flags change. |
| `PassProofs.ThreadResolvExtends` | Satellite/Satellite/NaiveResolver.cpp:111-177 | threadResolv(i, n) yields a result whose records are by satellites on stride i of n, at turns in [0, duration), grouped by satellite. Each record is at an image position and marks an image newly taken. |
| `PassProofs.RunWorkersExtends` | Satellite/Satellite/NaiveResolver.cpp:214-221 | After all workers, nbPict grew by the number of records, which is also the number of newly taken images. Each worker's result has its stride and order properties. Only valid collections gained flags. |
| `Resolution.LaunchResolution` | Satellite/Satellite/NaiveResolver.cpp:179-227 | There are four results. nbPict equals the number of records written. Worker w's records are by satellites congruent to w modulo 4, at turns of the simulation. |
| `Resolution.PassExtends` | Satellite/Satellite/NaiveResolver.cpp:207-221 | The pass, starting from nbPict 0 and empty results, extends the input. Every newly taken image has its position among the records. |
| `Resolution.StrideMod` | Satellite/Satellite/NaiveResolver.cpp:117 | A satellite index lies on stride w of n exactly when it is w modulo n. |
| `Resolution.VisitedByOne` | Satellite/Satellite/NaiveResolver.cpp:214-217 | Each satellite is visited by exactly one worker: the one equal to its index modulo 4. |
| `Resolution.WorkerPartition` | Satellite/Satellite/NaiveResolver.cpp:214-217 | Every record in worker w's result names a satellite congruent to w modulo 4. |
| `Resolution.PictureCountBound` | Satellite/Satellite/NaiveResolver.cpp:155 | nbPict lies between 0 and the total number of images of the input. |
| `Resolution.RecordsAtImages` | Satellite/Satellite/NaiveResolver.cpp:149-150 | Every record names the position of an image of the input. |
| `Resolution.KeptCollectionsShot` | Satellite/Satellite/NaiveResolver.cpp:223 | On input with no image taken, every image of a collection the check keeps valid has its position among the records written. |
| `Feasibility.TurnsFeasible` | Satellite/Satellite/NaiveResolver.cpp:123-166 | When moving and range ignore the record of the last shot, a satellite's turn loop only writes records in range of the satellite moved `turn` times from its initial state. |
| `Feasibility.ResolutionFeasible` | Satellite/Satellite/NaiveResolver.cpp:136-165 | Under the same condition, every record launchResolution writes names a satellite of the input and an image in range of that satellite moved `turn` times. |
| `Resolution.OutputLines` | Satellite/Satellite/NaiveResolver.cpp:230-234 | The file's first line is nbPict. Line i + 1 is the i-th record of the workers' results concatenated in worker order. |
| `Text.Stoi` | Satellite/Satellite/JudgeOutput.cpp:58 | std::stoi only returns values in the `int` range. A digit string reads as its value exactly when that value fits, and throws otherwise. |
| `Text.StoiIntToString` | Satellite/Satellite/NaiveResolver.cpp:149-152 | Every `int` written by std::to_string reads back through std::stoi as itself. |
| `Text.Split` | Satellite/Satellite/JudgeOutput.cpp:91 | splitStr yields at least one piece. No piece holds the delimiter, and the pieces joined with it give back the line. |
| `Text.SplitJoin` | Satellite/Satellite/JudgeOutput.cpp:91 | Splitting a join of delimiter-free pieces gives back the pieces. |
| `Text.StoiAllMeaning` | Satellite/Satellite/JudgeOutput.cpp:92-102 | Reading a line's fields succeeds exactly when every field parses, and then yields each field's value in order. |
| `Text.ParseFormatShot` | Satellite/Satellite/JudgeOutput.cpp:91-97 | A record written as `la lo turn x` with `int` fields reads back as the same four values. |
| `Text.FormatShotMatches` | Satellite/Satellite/JudgeOutput.cpp:43 | A record with non-negative turn and satellite matches the shot-line regular expression. |
| `Text.ParseShotGivesPosition` | Satellite/Satellite/JudgeOutput.cpp:198-201 | When a line gives a record, getImagesTaken's reader gives that record's (la, lo). |
| `Text.ParseEmptyLine` | Satellite/Satellite/JudgeOutput.cpp:91-102 | An empty line (a missing record) gives neither a record nor a position. |
| `JudgeOutput.GetLine` | Satellite/Satellite/JudgeOutput.cpp:48 | getline yields the next line and advances. At the end of the file the stream fails, and a failed stream stays failed. |
| `JudgeOutput.ReadAt` | Satellite/Satellite/JudgeOutput.cpp:190-197 | The k-th read of a fresh file yields line k while there is one. Past the end it fails and yields the last line again when the file has no final newline, and an empty line when it has one. |
| `JudgeOutput.ReadPictures` | Satellite/Satellite/JudgeOutput.cpp:64-76 | The read loop never stores more lines than the declared count. |
| `JudgeOutput.ReadPicturesMeaning` | Satellite/Satellite/JudgeOutput.cpp:65-76 | The read loop reaches the end of the file exactly when every remaining line matches the pattern. |
| `JudgeOutput.ReadPicturesStores` | Satellite/Satellite/JudgeOutput.cpp:65-76 | When the read loop reaches the end, it has stored every remaining line in order. |
| `JudgeOutput.RecordsValid` | Satellite/Satellite/JudgeOutput.cpp:89-107 | The semantic loop passes exactly when each of the first N stored lines parses and is within the latitude, longitude, turn and satellite bounds. |
| `JudgeOutput.SyntaxCheck` | Satellite/Satellite/JudgeOutput.cpp:33-111 | The syntax check, for any count bound, never changes the file it reads, and it accepts only by rewinding to the start of the file. |
| `JudgeOutput.IsValidSyntax` | Satellite/Satellite/JudgeOutput.cpp:108-110 | On acceptance the stream is rewound to the start of the file. |
| `JudgeOutput.IsValidSyntaxAsWritten` | Satellite/Satellite/JudgeOutput.cpp:36 | The check as written, with the declared count bounded by the number of collections. On acceptance it rewinds. |
| `JudgeOutput.SyntaxCheckThrows` | Satellite/Satellite/JudgeOutput.cpp:51-58 | On a fresh file the syntax check throws exactly when the header is a digit string too large for `int` (allocation failure is not modelled, see Left out). |
| `JudgeOutput.SyntaxCheckAccepts` | Satellite/Satellite/JudgeOutput.cpp:33-111 | The check accepts every file of this form: a header N with 0 < N <= bound, then exactly N lines, each matching the grammar, parsing to four integers and within bounds. |
| `JudgeOutput.SyntaxCheckOnlyAccepts` | Satellite/Satellite/JudgeOutput.cpp:33-111 | Every file the check accepts has that form. |
| `JudgeOutput.ImagesLoop` | Satellite/Satellite/JudgeOutput.cpp:166-168 | Every way the loop of isValidImages finishes leaves the stream rewound. |
| `JudgeOutput.IsValidImages` | Satellite/Satellite/JudgeOutput.cpp:117-169 | isValidImages leaves the stream rewound whenever it does not throw. |
| `JudgeOutput.ImagesLoopFaithful` | Satellite/Satellite/JudgeOutput.cpp:149-153 | The cached satellite lookup agrees with looking the satellite up afresh for every record. The loop accepts exactly when every record is in range. |
| `JudgeOutput.ImagesCacheFaithful` | Satellite/Satellite/JudgeOutput.cpp:117-169 | On a fresh file whose records name real satellites, isValidImages accepts exactly when every declared record is in range of its satellite at its turn. |
| `JudgeOutput.IsValidOutput` | Satellite/Satellite/JudgeOutput.cpp:22-24 | isValidOutput as written, with the syntax check's count bounded by the number of collections. On acceptance the file is rewound. |
| `JudgeOutput.IsValidOutputCorrected` | Satellite/Satellite/JudgeOutput.cpp:22-28 | isValidOutput with the count bounded by the number of pictures of the input. On acceptance the file is rewound. |
| `JudgeOutput.OutputShortCircuit` | Satellite/Satellite/JudgeOutput.cpp:23 | A syntax rejection is final whatever the physics: the physical check never runs. |
| `JudgeOutput.ValidOutputMeaning` | Satellite/Satellite/JudgeOutput.cpp:22-36 | When getSat returns the satellite with the requested id, isValidOutput as written accepts a fresh file exactly when the file has the accepted syntactic form with at most as many records as collections, and every record is in range of its satellite. |
| `JudgeOutput.ValidOutputCorrectedMeaning` | Satellite/Satellite/JudgeOutput.cpp:22-28 | Under the same condition, the corrected isValidOutput accepts a fresh file exactly when the file has the accepted syntactic form with at most as many records as images, and every record is in range of its satellite. |
| `JudgeOutput.GetImagesTaken` | Satellite/Satellite/JudgeOutput.cpp:206-208 | getImagesTaken leaves the stream rewound whenever it does not throw. |
| `JudgeOutput.TakenLoopMeaning` | Satellite/Satellite/JudgeOutput.cpp:194-205 | The loop finishes exactly when the declared lines exist and each gives a position. It then returns those positions in order after the accumulated ones. |
| `JudgeOutput.ReadTakenMeaning` | Satellite/Satellite/JudgeOutput.cpp:183-209 | For any header and record reader, the reader loop on a fresh file with header N returns exactly the records of the N reads in order, and throws when one of those reads gives nothing. |
| `JudgeOutput.GetImagesTakenMeaning` | Satellite/Satellite/JudgeOutput.cpp:183-209 | On a fresh file with header N, getImagesTaken returns exactly the (la, lo) of the N reads in order. It throws when one of them is unreadable. |
| `JudgeOutput.GetImagesTakenBadHeader` | Satellite/Satellite/JudgeOutput.cpp:190-191 | getImagesTaken throws when the first line does not read as an `int`. |
| `JudgeOutput.GetImagesTakenMissingRecord` | Satellite/Satellite/JudgeOutput.cpp:194-205 | On a file ending with a newline, getImagesTaken throws when the header declares as many records as there are lines or more. |
| `JudgeOutput.LastRecordReread` | Satellite/Satellite/JudgeOutput.cpp:194-205 | The file `2`, `la lo t x` without a final newline yields the position (la, lo) twice; with a final newline getImagesTaken throws. |
| `JudgeOutput.AllContained` | Satellite/Satellite/JudgeOutput.cpp:233-245 | The image loop finds the collection complete exactly when every image's (la, lo) is among the taken positions. |
| `JudgeOutput.GetScore` | Satellite/Satellite/JudgeOutput.cpp:215-253 | getScore throws exactly when reading the positions throws. Otherwise it leaves the stream rewound. |
| `JudgeOutput.ScoreOf` | Satellite/Satellite/JudgeOutput.cpp:228-251 | With non-negative points the score lies between 0 and the total points. It is the total when every collection is complete, and 0 when none is. |
| `JudgeOutput.ScoreSamePositions` | Satellite/Satellite/JudgeOutput.cpp:238 | The score depends only on the set of taken positions, not on their order, repetitions, turns or satellites. |
| `JudgeOutput.ScoreMonotone` | Satellite/Satellite/JudgeOutput.cpp:228-251 | With non-negative points, taking more positions never lowers the score. |
| `JudgeOutput.ScoreAppend` | Satellite/Satellite/JudgeOutput.cpp:228-251 | The score is additive over the collection list. |
| `JudgeOutput.ScoreAllOrNothing` | Satellite/Satellite/JudgeOutput.cpp:246-250 | Each collection adds its full points when all its images were taken and nothing otherwise. |
| `RoundTrip.ResolverRecordsWritable` | Satellite/Satellite/JudgeOutput.cpp:103 | On input within the judge's bounds, every record the resolver writes is within the judge's bounds and in the `int` range. |
| `RoundTrip.FileAccepted` | Satellite/Satellite/JudgeOutput.cpp:42-105 | A file of such records, preceded by their count, fits the picture array and has the accepted form for any bound no smaller than the count. |
| `RoundTrip.OutputAccepted` | Satellite/Satellite/NaiveResolver.cpp:229-236 | The documented syntax check accepts the resolver's output file whenever the resolver took at least one picture. |
| `RoundTrip.EmptyOutputRejected` | Satellite/Satellite/JudgeOutput.cpp:81-83 | A resolution without pictures writes a file the syntax check rejects without throwing. |
| `RoundTrip.FilePositions` | Satellite/Satellite/JudgeOutput.cpp:183-209 | getImagesTaken reads back exactly the positions of the records of such a file. |
| `RoundTrip.OutputScored` | Satellite/Satellite/JudgeOutput.cpp:215-253 | On the resolver's file, the judge reads back exactly the resolver's positions and scores them. |
| `RoundTrip.ScoreAtLeastKept` | Satellite/Satellite/JudgeOutput.cpp:228-251 | With non-negative points, the score is at least the points of any set of collections whose images were all taken. |
| `RoundTrip.OutputScoresKept` | Satellite/Satellite/NaiveResolver.cpp:223 | On fresh judgeable input, the judge's score of the resolver's file is at least the points of the collections the resolver kept valid. |
| `RoundTrip.RecordInRange` | Satellite/Satellite/JudgeOutput.cpp:175-177 | When getSatPosition aims where t moves aim and getSat finds satellite x at index x, isValidImage accepts every record in range of its satellite's track. |
| `RoundTrip.OutputFeasible` | Satellite/Satellite/JudgeOutput.cpp:117-169 | Under those conditions and with moving and range ignoring the record of the last shot, isValidImages accepts the resolver's file. |
| `RoundTrip.OutputValid` | Satellite/Satellite/JudgeOutput.cpp:22-24 | Under the same conditions, the corrected isValidOutput accepts the resolver's file whenever the resolver took a picture. |
| `RoundTrip.AsWrittenRejectsCount` | Satellite/Satellite/JudgeOutput.cpp:81 | A file the documented check accepts is rejected by the check as written, without throwing, once it declares more pictures than there are collections. |
| `RoundTrip.ResolverOutputRejectedAsWritten` | Satellite/Satellite/JudgeOutput.cpp:22-36 | The syntax check and isValidOutput as written reject the resolver's own file whenever the resolver took more pictures than there are collections. |
| `RoundTrip.CountBoundWitness` | Satellite/Satellite/JudgeOutput.cpp:22-36 | One collection of two images and the file `2`, `0 0 0 0`, `1 1 0 0`: the documented check accepts it; the syntax check and isValidOutput as written reject it, whatever the geometry. |

## Left out

- **Threads.** The four workers are threads that share `nbPict` and the collections' flags without synchronisation. The model runs them one after another in index order, which is one interleaving. Lost updates to `nbPict` under real concurrency are not modelled.
- **Console and timing.** Console output, the `verbose` timings (`std::chrono`) and the message on a rejected line are left out.
- **File I/O.** Opening and writing the output file is modelled as its list of lines.
- **The multi-pass loop.** The `while (redoSimulation)` loop is commented out in `launchResolution`, so exactly one pass runs. `resetTakenPictures` is modelled and proved on its own but is never called by the pass, just as in the source.
- **`memcpy` of the saved satellites.** Each satellite is processed once per pass, starting from its initial state, so restoring the satellites afterwards changes nothing the model observes.
- **Geometry helpers.** `isInRange`, `moveSatelite`, `getSatPosition` and `getSat` are not part of this model. They are parameters. A lemma that needs a property of them, such as `getSat` returning the satellite with the requested id, states it as a precondition (see "The judge's physics" below).
- **Floating point in `isConflict`.** `std::sqrt`/`std::pow` are replaced by an exact integer comparison. `Geometry.ConflictIsEuclidean` shows it agrees with the real-number comparison. Rounding of `double` is not modelled.
- **The relative offset after a capture.** The source stores a pointer to a local variable (`tmp_im`) that dies at the end of the block, which is undefined behaviour. The model stores the offset's value, as the code evidently intends.
- **Picture array overflow.** A file with more matching lines after the header than the header declares overflows `pictureArray`, which is undefined behaviour. It is excluded by the precondition `PictureArrayFits` of the syntax check.
- `JudgeOutput.SyntaxCheckThrows`: covers only the `std::out_of_range` of `std::stoi` on the header. The allocation `new std::string[picturesNb]` at `JudgeOutput.cpp:61` can throw `std::bad_alloc` for a large declared count that fits in `int` (such as `2000000000`); memory is not modelled, so the model reads on and rejects the count at line 81 instead.
- **Missing fields.** A record line with fewer fields than the code reads makes the source index past the end of its vector, which is undefined behaviour. It is modelled like a field `std::stoi` rejects: a rejection in `isValidSyntax`, an escaped exception in the other readers.
- **`int` overflow.**
  - `sa+1` is computed on unbounded integers.
  - `speedRot * (turn - lastShotTurn)` in `isConflict` (`NaiveResolver.cpp:52`, `:56`) is an `int` product computed on unbounded integers; its wrap-around is not modelled.
  - The `long` turn bound and `int` score and counter never wrap.
  - The round-trip lemmas assume the counts fit in `int`.
- **`splitStr` and `contains`.** Their bodies are not part of this model. `Text.Split` assumes `splitStr` cuts the line at every `' '`, keeping empty pieces, so the empty line gives one empty piece. `JudgeOutput.Contains` assumes `contains` compares (la, lo) by equality. `Text.ParseEmptyLine`, `JudgeOutput.SyntaxCheckOnlyAccepts` and the reading lemmas of `RoundTrip` rest on these two assumptions.
- **A file without a final newline whose last line is empty.** It is modelled as the same lines with a final newline.
- **The judge's physics.** `RoundTrip.OutputFeasible` and `RoundTrip.OutputValid` hold under three conditions on the parameters:
  - `getSatPosition(sat, t)` aims where `t` calls of `moveSatelite` aim;
  - `getSat` finds satellite `x` at index `x`;
  - `moveSatelite` and `isInRange` ignore the record of the last shot.
  These helpers are not part of this model, so the conditions stay hypotheses.
- **The locale.** The regular expressions' `[[:digit:]]` and `[[:space:]]` follow the C locale.
- **The other readers' parsing.** `getImagesTaken` and `isValidImages` parse records with the same `splitStr`/`std::stoi` model as the syntax check. Their loops take the reader as a parameter; the judge passes the record reader.

## Findings

| source | as written | input that shows it | evidently intended | confidence | as-written member | corrected member |
|---|---|---|---|---|---|---|
| Satellite/Satellite/JudgeOutput.cpp:36 | `maxPictures = getNbCollection()`, and line 81 rejects a declared count above it, although the comment at line 28 says it is the number of pictures of the input | one collection of two images, one satellite, duration 1; the file `2` / `0 0 0 0` / `1 1 0 0` | bound the declared count by the total number of images of the input | not executed; high — every resolver run that takes more pictures than there are collections is rejected | `JudgeOutput.IsValidSyntaxAsWritten` and `JudgeOutput.IsValidOutput`, shown by `RoundTrip.CountBoundWitness` | `JudgeOutput.IsValidSyntax` and `JudgeOutput.IsValidOutputCorrected`, with `RoundTrip.OutputAccepted` and `RoundTrip.OutputValid` |
