# Verification models

A Dafny model of the parts of the repository where a small slip would go unnoticed, and proofs of what those
parts are for. Each module names the source file it models. Code that works step by step is a method or a class
whose contract ties the new state to a function of the old one, and the lemmas are about those functions.

`dafny verify dfyconfig.toml` checks the whole project (Dafny 4.11).

## What is modelled

- **Offline map archives** (PMTiles version 3, sections 3 and 4): `TileIds`, `Varints`, `Directories`, `Headers`,
  `Archives` (the reader), `DirectoryTree` (the writer's root and leaves), `Selection`, `ExtractPlan`, `Extract`,
  `ExtractMeaning`, `ExtractSucceeds` and `VerifyArchive`. The main results are `ExtractMeaning.ExtractReadsTheSame`
  (an extract reads as its source does on every tile selected, and has no other) and
  `ExtractSucceeds.PlanSucceeds` (when an extract can be made, in terms of what a reader of the source can do).
- **Contour tracing**: `Contours`. The links from crossing to crossing are a permutation, so every outline closes, and the
  rings are those of the outlines.
- **The history store**: `HistoryQueue` and `HistoryStore` (queue, drain loop and exclusive lock over all
  interleavings), `Retention` and `ThinFile` (thinning that composes, in memory and in a file of rows), `RowText`,
  `Scan` and `NdjsonLines` (scans that skip lines), and `Roll` (the columnar files of a partition, with crashes).
- **Fast structures that agree with a simple one**: `GridIndex`, `PlaceIndex`, `EventStore`, `Paths`, `Jpeg`.
- `Numbers`, `Sorting`, `Strings` and `Wrappers` are shared.

## How it is modelled

- Numbers are mathematical integers or reals. Where the source's width matters it is written out: safe integers in
  varints and headers, the 32-bit operators of the tile ids, 64-bit little-endian header fields.
- Text is a sequence of characters (Unicode scalar values, where JavaScript counts UTF-16 units), compared
  character by character. Times are integers, or ISO text of one width.
- gzip is a pair of functions with three laws (`Archives.Lawful`): what was compressed decompresses to itself within
  the limit given, never at better than 1032 to one, and compressing adds little to what cannot be compressed.
- A range source is the bytes of a file: a read gives exactly the bytes asked for, or fails. As the file does not
  change while it is read, the order in which reads end does not show; how many are under way does.
- An async function is cut at its awaits: its steps are the code between two of them, and they interleave in every
  order the awaits allow. Disk steps (append, rename, copy, remove) are atomic, and a crash may follow any of them.
- The tile rectangle of an area at a zoom (`tileRangeForBounds`), normalised place names and tokens, the order of
  names, what nearness adds to a score, contour points and what an observation becomes as a row are parameters.
- The extract theorem asks of the source what the format promises: ids in order, runs that do not overlap, leaves
  within their pointer's interval, and one length for each offset; and that the new archive's size is a safe
  integer.
- The grid's cell size is given by how many of its rows make 180 degrees, which is what its constructor accepts.
- Rows of one object and time are ordered by a tie: the rank of the observation id for rows in memory, and the place
  in the file for a file.

## Where the code does less than its comments say

- An observation whose row is dropped because the queue is full is remembered as written: sent again, it is skipped
  as unchanged (`HistoryStore.RetryIsAcceptedOnlyIfNotNeeded`).
- `append` does not wait for a roll under way, and rows appended between its copy and the removal of the staging file
  are lost (`Roll.AppendLastsUnlessCopied`, `Roll.AppendAfterCopyIsLost`).
- A box whose south is 90, or whose west is 180 without reaching round, misses the items on that edge
  (`GridIndex.FindsAllIffSearchable`).
- A printed path with a closing bracket in a key, or with an index from 10^21 on, does not parse, and a first key `$` is
  lost (`Paths.PathRoundTrip`).
- `verifyArchive` does not look where empty tile data are said to be, so a tile of an archive it accepts may fail to
  read (`VerifyArchive.EmptyDataReadsWhereItCan`).
- An event whose start does not parse breaks the order of the event store (`EventStore.InsertSortsIffItParses`).
- A directory of more than fifty million entries, or with a number past the safe integers, can be
  written and not read (`Directories.DirectoryRoundTrip`).

## Model

| member | source | states |
|---|---|---|
| `TileIds.CurveOfPoint` | packages/offline/src/pmtiles.ts:305-340 | the place on the curve of the point at a distance is that distance: decoding, then encoding, on every square of side 2^k |
| `TileIds.PointOfCurve` | packages/offline/src/pmtiles.ts:305-340 | the point at the place of a point is that point: the two are inverse bijections on every square |
| `TileIds.CurveEnds` | packages/offline/src/pmtiles.ts:291-320 | the curve enters each square at its top left corner and leaves it at its top right one |
| `TileIds.CurveIsConnected` | packages/offline/src/pmtiles.ts:291-340 | places that follow each other are edge-adjacent points |
| `TileIds.ZxyToTileId` | packages/offline/src/pmtiles.ts:305-320 | succeeds exactly on the tiles of zooms 0 to 15; its loop from the top bit, with the full-width rotation, gives the curve's place after the ids of the zooms above; every shift it does is shown to fit 32 bits |
| `TileIds.TileIdToZxy` | packages/offline/src/pmtiles.ts:322-340 | refuses exactly the ids past the last zoom; its loop from the bottom bit, with the narrowing rotation, gives the tile at that place of the curve; its 32-bit operators are shown to fit |
| `TileIds.TileIdInZoom` | packages/offline/src/pmtiles.ts:300-320 | the ids of a zoom lie in [zoomStartId(z), zoomStartId(z+1)) |
| `TileIds.TileIdsAreDistinct` | packages/offline/src/pmtiles.ts:305-320 | different tiles, of one zoom or two, have different ids |
| `TileIds.TileRoundTrip` | packages/offline/src/pmtiles.ts:305-340 | the id of a tile decodes to that tile |
| `TileIds.IdRoundTrip` | packages/offline/src/pmtiles.ts:305-340 | the tile of an id has that id |
| `TileIds.ConsecutiveIdsAreNeighbours` | packages/offline/src/pmtiles.ts:305-340 | two consecutive ids of one zoom are tiles that share an edge |
| `Varints.VarintRoundTrip` | packages/offline/src/pmtiles.ts:160-228 | whatever bytes follow, a written number reads back as itself when it is a safe integer, and is refused when it is not |
| `Varints.VarintIs` | packages/offline/src/pmtiles.ts:201-212 | a number is written in groups of seven bits that make it up, the lowest first and the highest not empty, each byte but the last with its top bit set |
| `Varints.ReadsTheDigits` | packages/offline/src/pmtiles.ts:160-178 | of any bytes the number read is what the groups up to the first byte below 128 make up, and the bytes after it are left; it is refused when there is none among the first ten bytes, or the number is not a safe integer |
| `Varints.NumsRoundTrip` | packages/offline/src/pmtiles.ts:160-228 | so does a list of numbers, when all are safe integers and only then |
| `Varints.VarintReader.Next` | packages/offline/src/pmtiles.ts:160-178 | reads one number from where the reader is, leaves it after it, and fails where the byte format says so: no bytes left, ten bytes with more to come, or an unsafe integer |
| `Varints.VarintWriter.Push` | packages/offline/src/pmtiles.ts:201-212 | puts the number's bytes behind what was written, flushed or not |
| `Varints.VarintWriter.Flush` | packages/offline/src/pmtiles.ts:213-216 | moves the bytes on without changing what was written |
| `Varints.VarintWriter.ToBytes` | packages/offline/src/pmtiles.ts:217-228 | copies the parts into one buffer that holds exactly what was written |
| `Directories.DirectoryRoundTrip` | packages/offline/src/pmtiles.ts:181-252 | a directory that can be written reads back as the same entries, offset shorthand included and whatever follows, exactly when it has at most 50 million entries and every number written is safe; otherwise the reader refuses it |
| `Directories.ColumnsAreWritten` | packages/offline/src/pmtiles.ts:231-252 | where each number of a written directory is: the count, then in four columns the differences of ids, the runs, the lengths, and the offsets plus one or 0 for the shorthand |
| `Directories.EntriesAreTheColumns` | packages/offline/src/pmtiles.ts:181-199 | what a directory of any safe numbers says its entries are, field by field and column by column |
| `Directories.EncodePmDirectory` | packages/offline/src/pmtiles.ts:231-252 | the four column loops write the count, id deltas, runs, lengths and offsets of the format, and fail on no entries, on ids out of order and on an entry without length |
| `Directories.DecodePmDirectory` | packages/offline/src/pmtiles.ts:181-199 | the four column loops give the entries those columns say, filled in place, or fail where a number does |
| `Headers.HeaderRoundTrip` | packages/offline/src/pmtiles.ts:70-141 | a written header reads back as itself exactly when its eleven 64-bit numbers are safe integers |
| `Headers.FieldsAreRead` | packages/offline/src/pmtiles.ts:76-113 | a header is read exactly when there are 127 bytes that begin with the name and version 3 and eleven safe numbers; and then every field, number, flag, zoom and position, is the little-endian one at its own byte place |
| `Headers.FieldsAreWritten` | packages/offline/src/pmtiles.ts:114-141 | in a header written with safe numbers every field is at that byte place |
| `Archives.FindPmEntry` | packages/offline/src/pmtiles.ts:357-372 | the binary search loop, step by step, gives the entry of the recursive search |
| `Archives.LookupFindsTheEntry` | packages/offline/src/pmtiles.ts:357-372 | on a sorted directory the search finds the entry that holds the id: the run over it, else the leaf pointer before it, else nothing |
| `Archives.ReadPmTile` | packages/offline/src/pmtiles.ts:375-394 | refuses what is not a tile; otherwise it walks from the root through at most four directories, and gives the bytes the entry found points at, or nothing |
| `DirectoryTree.BuildPmDirectories` | packages/offline/src/pmtiles.ts:259-287 | the loop over leaf sizes, with its splitting and joining of leaves, gives the root and leaf section of the directory tree, or fails when the entries cannot be written |
| `DirectoryTree.SplitLeaves` | packages/offline/src/pmtiles.ts:268-280 | one loop: the pointers are those of the leaves, and the parts joined are the leaf section |
| `DirectoryTree.BuildFits` | packages/offline/src/pmtiles.ts:254-287 | on one or more entries sorted by id, with positive lengths and safe numbers, as many as an array holds, building ends and never throws; the root is within its 16 KiB, reads back, and is either the entries themselves or pointers that tile the leaf section exactly |
| `DirectoryTree.TreeHolds` | packages/offline/src/pmtiles.ts:259-287 | on as many entries with increasing ids, looking any id up in the root finds what the flat list of those entries holds, or the pointer to the stored leaf whose entries hold it |
| `DirectoryTree.TreeLookup` | packages/offline/src/pmtiles.ts:259-287 | and the reader decodes that leaf to the same answer: of any number of entries when they are stored as they are, of up to five hundred million when they are compressed |
| `Selection.SelectionTileCount` | packages/offline/src/pmtiles-extract.ts:68-75 | the count of the world part and of the area's rectangles, zoom by zoom |
| `Selection.WantedIds` | packages/offline/src/pmtiles-extract.ts:94-105 | the three nested loops and the sort give the end of the world part and the sorted ids of the area's tiles |
| `Selection.AreaIsExact` | packages/offline/src/pmtiles-extract.ts:68-105 | the area's ids are strictly increasing, at or past the end of the world part, and with it as many as the count says, at most twenty million |
| `Selection.WantedIsSelected` | packages/offline/src/pmtiles-extract.ts:94-105 | a tile's id is wanted exactly when its zoom is in the world part or it is in the area's rectangle of its zoom |
| `Selection.LowerBound` | packages/offline/src/pmtiles-extract.ts:108-117 | the binary search gives how many ids are below a value |
| `ExtractPlan.SkippedRangeHasNothing` | packages/offline/src/pmtiles-extract.ts:146-147 | a leaf that is skipped holds no wanted id |
| `ExtractPlan.PiecesExact` | packages/offline/src/pmtiles-extract.ts:168-181 | what a run is trimmed and re-run to is sorted and disjoint, within the run, and addresses exactly its wanted ids with the run's blob |
| `ExtractPlan.WalkReadsTheBlob` | packages/offline/src/pmtiles.ts:357-394 | over a well-formed directory tree the reader's walk finds, for every id, the blob the tree holds for it |
| `ExtractPlan.VisitExact` | packages/offline/src/pmtiles-extract.ts:151-184 | the visit gives sorted, disjoint runs in which every wanted id has the blob the reader finds in the source, and no other id has any |
| `ExtractPlan.Planner.Wants` | packages/offline/src/pmtiles-extract.ts:146-147 | the range test is whether some wanted id lies in the interval |
| `ExtractPlan.Planner.PushAreaRuns` | packages/offline/src/pmtiles-extract.ts:173-180 | the two loops push the area's ids of a run, merged where they are consecutive |
| `ExtractPlan.Planner.PushPieces` | packages/offline/src/pmtiles-extract.ts:168-181 | one run's pushes are its trimmed pieces |
| `ExtractPlan.Planner.Visit` | packages/offline/src/pmtiles-extract.ts:151-183 | the recursive visit pushes, in order, what the specification of the visit gives, or fails where a leaf cannot be read or is nested too deep |
| `Extract.BlobsAreInOrder` | packages/offline/src/pmtiles-extract.ts:188-198 | the blobs are the distinct offsets of the entries in increasing order, each with the length first seen for it |
| `Extract.BlobIsAtNewOffset` | packages/offline/src/pmtiles-extract.ts:233-246 | in the blobs written one after another, each blob's bytes are at its new offset |
| `Extract.MoveEntries` | packages/offline/src/pmtiles-extract.ts:233-246 | every entry is re-pointed at its blob's new offset |
| `Extract.PlanExtract` | packages/offline/src/pmtiles-extract.ts:124-212 | the plan: the selection's problems, the source's, the visit's runs sorted, their blobs and sums, and the layout's size, each failing where the source code throws |
| `Extract.LayOut` | packages/offline/src/pmtiles-extract.ts:223-285 | the front part: the header with its sections in order, root, metadata and leaves |
| `Extract.Coalesce` | packages/offline/src/pmtiles-extract.ts:291-316 | the groups are consecutive, cover all the blobs, and each takes blobs as long as the next is within the gap and the range limit |
| `Extract.GroupHoldsItsBlobs` | packages/offline/src/pmtiles-extract.ts:291-316 | a group's range holds each of its blobs whole and is no longer than the limit or its first blob |
| `Extract.JoinsWhen` | packages/offline/src/pmtiles-extract.ts:291-316 | a blob joins the group before it exactly when it begins within the gap of the end of one of its blobs, and ends within the limit of where the group begins |
| `Extract.GroupReads` | packages/offline/src/pmtiles-extract.ts:362-376 | a group can be read exactly when each of its blobs can, and each blob is in it where its offset says |
| `Extract.StartUpTo` | packages/offline/src/pmtiles-extract.ts:355-361 | starts the reads up to one, those not started yet, and no more are under way than from the one whose turn it is to the last started |
| `Extract.PutBlobs` | packages/offline/src/pmtiles-extract.ts:348-379 | the blobs are written in the plan's order with reads started ahead, and never more than the concurrency are under way; or it fails because one cannot be read |
| `Extract.WriteExtract` | packages/offline/src/pmtiles-extract.ts:322-382 | writes the front part and then every blob in plan order, and reports their size, with at most the concurrency asked for, and eight, reads under way; it succeeds exactly when the archive can be made and the plan's sum is that of its blobs |
| `ExtractMeaning.EntriesAreFew` | packages/offline/src/pmtiles-extract.ts:124-199 | a plan has at least one run and at most twenty million, sorted and disjoint |
| `ExtractMeaning.PlanIsExact` | packages/offline/src/pmtiles-extract.ts:124-199 | for every id, wanted or not, the plan's sorted runs hold the blob of the source or nothing |
| `ExtractMeaning.AddressedAreTheIds` | packages/offline/src/pmtiles-extract.ts:199 | the tiles addressed are as many as the ids that have a blob in the runs |
| `ExtractMeaning.ArchiveHolds` | packages/offline/src/pmtiles-extract.ts:223-382 | the archive written has a readable header, its directory tree holds the plan's moved entries, and its tile data are the blobs |
| `ExtractMeaning.ExtractReadsTheSame` | packages/offline/src/pmtiles-extract.ts:124-382 | for every well-formed clustered source, accepted selection and tile: reading the tile from the archive gives what reading it from the source gives when the selection asks for it, and nothing otherwise |
| `ExtractMeaning.ArchiveIsDescribed` | packages/offline/src/pmtiles-extract.ts:247-285 | the written header has zooms from 0 to the deepest asked for, the centre of the area rounded to 1e-7 degrees and a centre zoom of about 8, or 2 without an area, and the source's bounds, compression and types; the metadata read from the archive are the source's |
| `ExtractSucceeds.VisitSucceeds` | packages/offline/src/pmtiles-extract.ts:151-183 | the visit of a well-formed directory fails at no leaf exactly when the reader's walk to every wanted id ends without failing, and where it goes four directories deep there is no further leaf |
| `ExtractSucceeds.PlanSucceeds` | packages/offline/src/pmtiles-extract.ts:80-212 | an extract of a well-formed source, whose tiles asked for are no longer than a safe integer together, can be planned exactly when: the zooms are whole and in order, the area has a size and is on the Earth, the tiles are at most twenty million; the header reads and says clustered; the metadata read; the reader's walk to every tile asked for ends; one of them is there; and none that is there is empty |
| `ExtractSucceeds.UnclusteredIsRefused` | packages/offline/src/pmtiles-extract.ts:133 | an archive whose header does not say clustered is refused |
| `ExtractSucceeds.ArchiveSucceeds` | packages/offline/src/pmtiles-extract.ts:322-382 | a planned extract can be written exactly when the reader can read every tile asked for from the source |
| `ExtractSucceeds.WhatCanBeReadIsExtracted` | packages/offline/src/pmtiles-extract.ts:124-382 | whatever the reader can read can be extracted: planning and writing both succeed |
| `VerifyArchive.Checker.Check` | packages/offline/src/pmtiles-extract.ts:409-427 | the recursive check counts runs and tiles, and fails where ids go back, a leaf or a tile points outside its section, or leaves are nested |
| `VerifyArchive.Verify` | packages/offline/src/pmtiles-extract.ts:388-437 | reports the first thing wrong with an archive's header, sections, size, directories or counts |
| `VerifyArchive.WrittenArchiveIsAccepted` | packages/offline/src/pmtiles-extract.ts:322-437 | every archive written from a good source passes the check |
| `VerifyArchive.AcceptedArchiveCounts` | packages/offline/src/pmtiles-extract.ts:388-437 | in an accepted archive the ids of the runs, through the leaves, never go back, and the runs and their tiles are as many as the header says |
| `VerifyArchive.AcceptedArchiveIsWhole` | packages/offline/src/pmtiles-extract.ts:391-407 | an accepted archive's sections are each empty or after the header and within the file, the file ends where one of them does, and every run is within the tile data |
| `VerifyArchive.SectionsHoldTogether` | packages/offline/src/pmtiles-extract.ts:391-407 | the sections pass the check exactly then |
| `VerifyArchive.AcceptedArchiveReads` | packages/offline/src/pmtiles-extract.ts:388-437 | in an accepted archive the walk for any id decodes every directory it meets; the tile reads exactly when the run found, if any, is in the file, and always when there are tile data, or no runs, or a place for them in the file |
| `VerifyArchive.EmptyDataReadsWhereItCan` | packages/offline/src/pmtiles-extract.ts:400-407 | of empty tile data the check does not look at the place: for every place there is an accepted archive of one run that reads exactly when that condition holds |
| `Contours.SidesPair` | packages/connector-runtime/src/contours.ts:225-262 | in one cell the links pair its exits with its entries one to one, saddles included |
| `Contours.LinkCutsOff` | packages/connector-runtime/src/contours.ts:247-261 | at a saddle a link has only outside corners on its right when the cell's mean is inside, and only inside corners on its left when it is outside |
| `Contours.CrossedHasTwoCells` | packages/connector-runtime/src/contours.ts:210-262 | in a padded grid a crossed edge is left by exactly one cell and entered by exactly one |
| `Contours.SuccessorIsAPermutation` | packages/connector-runtime/src/contours.ts:210-262 | from each crossed edge there is one next and one previous crossed edge, each undoing the other |
| `Contours.LinkCell` | packages/connector-runtime/src/contours.ts:217-261 | one cell's branches link its exits to the entries those pairings say |
| `Contours.LinkCells` | packages/connector-runtime/src/contours.ts:208-262 | the loop over the cells links every crossed edge of the grid, once, to its successor, and nothing else |
| `Contours.LinksPermute` | packages/connector-runtime/src/contours.ts:208-262 | the links lead from keys to keys, no two to the same: they are a permutation of the crossed edges |
| `Contours.FollowFrom` | packages/connector-runtime/src/contours.ts:264-275 | following the links from a key and deleting them ends where it began, having met each key of one cycle once |
| `Contours.TraceLinks` | packages/connector-runtime/src/contours.ts:264-275 | the rings are those of cycles that are closed and share no crossing; unless it gives up, every crossing is in one and there are at most five thousand rings, and it gives up only when such cycles draw more; it ends because the links are used up |
| `Contours.TraceLevel` | packages/connector-runtime/src/contours.ts:187-275 | the same of a padded grid at a level, from its cells to its rings, when it gives up too |
| `Contours.RingsAreTheirs` | packages/connector-runtime/src/contours.ts:264-275 | the rings of traced outlines, one for each that has one and in their order: a ring's points are those of its outline's crossings in order without repeats, closed with the first, no two neighbours the same, at least four, and round an area past the threshold |
| `Contours.DrawnIsTheRing` | packages/connector-runtime/src/contours.ts:269-274 | what is drawn for one outline is its ring, if it has one, and nothing else |
| `Contours.CutOffTriangle` | packages/connector-runtime/src/contours.ts:283-288 | the area of a ring is that of the triangle of its first three points and of the ring without the second |
| `Contours.AreaOfTriangle` | packages/connector-runtime/src/contours.ts:283-288 | the area of a triangle, signed by its sense, and none of a line there and back |
| `Contours.OutlineHasAreaOnTheLeft` | packages/connector-runtime/src/contours.ts:182-262 | round an outline each crossing is stepped across from the cell the one before it leads through to the next, with the end inside the area on the left and the other on the right |
| `Contours.FillGrid` | packages/connector-runtime/src/contours.ts:78-103 | the padded grid holds the last value given for each point, its border is below every level, and on a whole circle the columns either side of the seam agree |
| `HistoryQueue.SiftCountsAll` | packages/history-store/src/store.ts:297-334 | every observation of a batch is counted once: in a group, invalid, not retained, or unchanged |
| `HistoryQueue.SiftCountsEach` | packages/history-store/src/store.ts:297-318 | the invalid are those of another provider or that cannot be made a row, and those not retained are the provider's own that are kept no time |
| `HistoryQueue.NothingNewIsSkipped` | packages/history-store/src/store.ts:297-331 | for every batch and memory, the memory starting over included: the rows that say something their object's last valid observation did not are all kept, in the batch's order |
| `HistoryQueue.SiftKeepsWhatIsNew` | packages/history-store/src/store.ts:297-331 | and while the memory does not start over the rows kept of each partition are exactly those |
| `HistoryQueue.MemoryIsBounded` | packages/history-store/src/store.ts:322-323 | at most half a million objects are remembered, whatever is sent |
| `HistoryQueue.AdmitsUpToTheRoom` | packages/history-store/src/store.ts:335-348 | what is admitted is the new rows, group after group, up to the room in the queue; the rest is dropped |
| `HistoryQueue.AdmitQueues` | packages/history-store/src/store.ts:335-348 | admitted rows go behind those their partition has queued, and the queue's count keeps up |
| `HistoryStore.ReceiptAddsUp` | packages/history-store/src/store.ts:267-364 | a receipt's counts are non-negative and sum to the observations of the batch |
| `HistoryStore.ReceiptSaysWhy` | packages/history-store/src/store.ts:276-364 | what a receipt says of a closed store, of a provider not allowed, and of each reason else; the store's own counts grow by what the receipt says |
| `HistoryStore.ExclusiveIsExclusive` | packages/history-store/src/store.ts:382-433 | in every run no append is in flight while an exclusive section runs, and no two exclusive sections overlap |
| `HistoryStore.RowsAreKept` | packages/history-store/src/store.ts:267-433 | in every run the queue's count is that of its rows and within its bound, accepted rows are written, failed, under way or queued, and each partition's rows reach the backend in the order they were accepted |
| `HistoryStore.FlushedIsSettled` | packages/history-store/src/store.ts:367-376 | in every run, when the drain loop is gone nothing is queued or under way, and every accepted row has been written or has failed |
| `HistoryStore.WrittenIsWhatResolved` | packages/history-store/src/store.ts:390-417 | in every run, from its events: the rows written are those of the appends whose promise resolved, the rows failed those of the appends that threw, and the failed appends how many threw, among those the drain loop has come past; all but one that has just settled |
| `HistoryStore.FlushedIsWhatResolved` | packages/history-store/src/store.ts:367-417 | and when the drain loop is gone, among all the appends started |
| `HistoryStore.RunKeeps` | packages/history-store/src/store.ts:267-433 | every run of steps, in any order their awaits allow, keeps the lock, the books and the order |
| `HistoryStore.MovesComeToAnEnd` | packages/history-store/src/store.ts:367-433 | without new calls each step brings the store nearer to rest: a bound on the steps left falls |
| `HistoryStore.SomethingMoves` | packages/history-store/src/store.ts:367-433 | until the drain loop is gone and the lock is free some step can be taken: there is no deadlock, and with the bound a flush returns |
| `HistoryStore.RetryIsAcceptedOnlyIfNotNeeded` | packages/history-store/src/store.ts:317-348 | a dropped row's fingerprint is remembered: sent again it is taken for a repeat, so of two tries one is accepted exactly when the queue had room at the first |
| `HistoryStore.Store.SiftBatch` | packages/history-store/src/store.ts:297-331 | the loop over the observations, with its memory of fingerprints, sifts the batch |
| `HistoryStore.Store.AdmitGroups` | packages/history-store/src/store.ts:335-348 | the loop over the groups admits them to the queue |
| `HistoryStore.Store.WriteBatch` | packages/history-store/src/store.ts:267-364 | the whole new state and the receipt: closed, not allowed, or queued; it keeps the lock, the books and each partition's order |
| `HistoryStore.Store.QueueBatch` | packages/history-store/src/store.ts:295-364 | a batch that may be kept is sifted, admitted up to the room, counted, and the drain loop is kicked exactly when a row was admitted |
| `HistoryStore.Store.KickDrain` | packages/history-store/src/store.ts:382-388 | starts the drain loop unless one is running |
| `HistoryStore.Store.DrainOn` | packages/history-store/src/store.ts:390-402 | the drain loop from its top to its next await |
| `HistoryStore.Store.TakeFirst` | packages/history-store/src/store.ts:394-402 | takes the first partition from the queue and starts its append |
| `HistoryStore.Store.DrainResumes` | packages/history-store/src/store.ts:392-418 | what the drain loop does when the lock is released, or its append has settled; it keeps the lock, the books and the order |
| `HistoryStore.Store.DrainFinally` | packages/history-store/src/store.ts:384-387 | when the drain loop has returned it is cleared, and started again if rows came; it keeps the lock, the books and the order |
| `HistoryStore.Store.WithExclusive` | packages/history-store/src/store.ts:422-427 | a call takes the lock, or waits for it; no append that is under way overlaps what it runs |
| `HistoryStore.Store.CallerResumes` | packages/history-store/src/store.ts:423-428 | a waiting call looks again, or goes on when the append it awaited has settled, and then no append is under way |
| `HistoryStore.Store.Release` | packages/history-store/src/store.ts:429-432 | the lock is released when the function ends; the lock, the books and the order are kept |
| `HistoryStore.Store.SettleAppend` | packages/history-store/src/store.ts:398-403 | the append under way settles, and is not counted yet |
| `HistoryStore.CloseSettlesWhatWasAccepted` | packages/history-store/src/store.ts:257-262 | close flushes first: every row accepted by the time its flush found the drain loop gone has been written or has failed, in order, however the run goes on |
| `HistoryStore.Store.FlushLooks` | packages/history-store/src/store.ts:367-368 | the flush of a close goes on exactly when the drain loop is gone |
| `HistoryStore.Store.CountAppend` | packages/history-store/src/store.ts:403-417 | the append that has settled is counted as written or as failed |
| `HistoryStore.Store.Close` | packages/history-store/src/store.ts:257-262 | flushed, the store is closed: later batches are dropped, and what was queued meanwhile stays |
| `Retention.ThinTwice` | packages/history-store/src/retention.ts:103-202 | thinning to a tier and later to a coarser one leaves exactly the rows and ordinals of thinning to that one at once, for any factors |
| `Retention.ThinAsItAges` | packages/history-store/src/retention.ts:92-202 | so does thinning by age and again at a greater age |
| `Retention.TierForAge` | packages/history-store/src/retention.ts:92-97 | the last tier whose age has come, counted from one |
| `Retention.SomeAlwaysSurvive` | packages/history-store/src/retention.ts:189-198 | the first and last row of each object and the user's rows are among the rows left by every thinning, with their ordinals |
| `Retention.OrdinalsStayDistinct` | packages/history-store/src/retention.ts:188-193 | no two rows of an object get one ordinal, and those newly numbered are numbered in order |
| `Retention.PlanThinning` | packages/history-store/src/retention.ts:168-202 | the plan's arrays say, for each row, whether it is kept and its ordinal, as stated of the object's rows without sorting them; and how many are removed |
| `Retention.KeptInPlainTerms` | packages/history-store/src/retention.ts:168-199 | from tier 1 on a row that is not first, last or the user's is kept exactly when its ordinal is divisible by the whole part of what that tier, or the last one for a tier past the end, or a later one keeps one in, at least 1 |
| `Retention.FirstInPlainTerms` | packages/history-store/src/retention.ts:188-195 | first and last are by time, then tie-break, then place |
| `Retention.OrdinalsInPlainTerms` | packages/history-store/src/retention.ts:189-192 | a row keeps its ordinal; new ones are above all given before, in order of time, and leave no gap |
| `Retention.GroupByObject` | packages/history-store/src/retention.ts:179-185 | the loop gathers each object's rows |
| `Retention.FindNext` | packages/history-store/src/retention.ts:189-191 | one more than the highest ordinal of the object |
| `Retention.Number` | packages/history-store/src/retention.ts:190-192 | rows that have an ordinal keep it, the others continue after the highest in order |
| `Retention.Mark` | packages/history-store/src/retention.ts:193-199 | a row is kept exactly when it is first, last, the user's, or on the grid of the tier or a coarser one |
| `ThinFile.SamePlan` | packages/history-store/src/retention.ts:117-133 | the plan does not depend on which numbers stand for the objects |
| `ThinFile.DownsampleRows` | packages/history-store/src/retention.ts:113-140 | rows in memory are thinned to the rows the plan keeps, renumbered, and the count of the others |
| `ThinFile.Columns.Grow` | packages/history-store/src/ndjson-backend.ts:260-274 | doubling the columns keeps what was read |
| `ThinFile.Columns.Push` | packages/history-store/src/ndjson-backend.ts:292-300 | a row read is added, whatever room was left |
| `ThinFile.ReadColumns` | packages/history-store/src/ndjson-backend.ts:276-301 | the first pass reads the columns of the file's rows and the line each is on, and counts malformed lines |
| `ThinFile.WriteKept` | packages/history-store/src/ndjson-backend.ts:318-342 | the second pass, counting lines and rows, writes exactly the kept rows with their ordinals, without raw hashes if asked, and keeps the count of those and the bounds of the times |
| `ThinFile.WrittenIs` | packages/history-store/src/ndjson-backend.ts:328-339 | what is written of some rows is all of them, stripped if asked; the hashes stripped are counted, and the first and last time are theirs and bound them |
| `ThinFile.ThinPartition` | packages/history-store/src/ndjson-backend.ts:240-378 | the two passes put in the file's place exactly the rows that thinning its rows in memory would leave, stripped if asked, and no file when none is left |
| `RowText.PeekIsTheField` | packages/history-store/src/scan-queries.ts:86-101 | a field read from a printed flat row without parsing it is that row's own text for the key when nothing in it is escaped, and nothing otherwise: never text from inside another value |
| `RowText.NoTagInString` | packages/history-store/src/scan-queries.ts:86-101 | no field's tag starts inside a printed string value or at its quotes |
| `RowText.StringRoundTrip` | packages/history-store/src/row.ts:228-230 | every string is read back from its printed text, as RFC 8259 reads it |
| `Scan.PrintedIsFaithful` | packages/history-store/src/row.ts:228-230 | a line printed from a row can only be peeked for what the row says |
| `Scan.NewerIsOrder` | packages/history-store/src/scan-queries.ts:48-52 | newer is a strict order, and total but for rows of one moment and id |
| `Scan.LatestInPlainTerms` | packages/history-store/src/scan-queries.ts:48-63 | the newest row of an object is the last observed, of those the last received, of those the one of the highest id |
| `Scan.ReduceLatest` | packages/history-store/src/scan-queries.ts:54-63 | the loop keeps the newest row of each object |
| `Scan.SkippedIsOldOrOut` | packages/history-store/src/scan-queries.ts:110-121 | a line that is not parsed is out of the range, or older than the row held for its object |
| `Scan.SkippingIsHarmless` | packages/history-store/src/scan-queries.ts:138-169 | rows older than the one held for their object change nothing |
| `Scan.ReadMatching` | packages/history-store/src/scan-queries.ts:153-166 | what is read of a file are the rows that match, but for ones older than those held |
| `Scan.ToReadHasAll` | packages/history-store/src/scan-queries.ts:144-160 | which partitions are read, and in which order, does not change the rows that match |
| `Scan.ScanObjectsAt` | packages/history-store/src/scan-queries.ts:138-169 | the newest matching row of each object, by object id, up to the limit: that of reading every row of every partition |
| `Scan.ScansAgree` | packages/history-store/src/scan-queries.ts:138-169 | any two scans agree, whatever they skip and in whatever order the partitions stand |
| `Scan.ScanTrack` | packages/history-store/src/scan-queries.ts:171-187 | one object's rows in the range, sorted: those that parsing every line of every partition would give |
| `Scan.TrackIs` | packages/history-store/src/scan-queries.ts:171-187 | a track is in order of time and then id, and has each of the object's rows in the range as often as a line says it, and no others |
| `NdjsonLines.ReadNdjsonFile` | packages/history-store/src/ndjson-backend.ts:553-589 | the lines taken are those of the whole text, whatever chunks it is read in; each, without its carriage return, is passed over when blank or not asked for, and else is a row or counted malformed |
| `NdjsonLines.Reader.Take` | packages/history-store/src/ndjson-backend.ts:566-573 | one line is taken so |
| `NdjsonLines.Reader.TakeEnded` | packages/history-store/src/ndjson-backend.ts:577-583 | the lines a text ends are taken, and what is left is carried over |
| `NdjsonLines.LinesRoundTrip` | packages/history-store/src/ndjson-backend.ts:553-589 | lines written each with a line feed are read back |
| `NdjsonLines.LinesMakeUpTheText` | packages/history-store/src/ndjson-backend.ts:553-589 | the lines of any text hold no line feed and make it up with one after each, but for what is left after the last |
| `NdjsonLines.LineIsTaken` | packages/history-store/src/ndjson-backend.ts:566-573 | a line less its carriage return is passed over when it is white space only or not asked for, and else is one more row or one more malformed |
| `Roll.StepKeeps` | packages/history-store/src/duckdb-backend.ts:286-464 | every step of an append, roll, rewrite or delete, and a crash after any of them, keeps the rows the partition is to hold |
| `Roll.EveryRowIsHeld` | packages/history-store/src/duckdb-backend.ts:286-464 | over every run of appends, rolls and crashes the highest generation, staging file and earlier-format file hold every row at least as often as it came |
| `Roll.RequiredIsHeld` | packages/history-store/src/duckdb-backend.ts:411-464 | with rewrites and deletes too, what the last of them and the appends since left to hold is held |
| `Roll.NoPathWrittenTwice` | packages/history-store/src/duckdb-backend.ts:688-701 | over every run, whatever is appended meanwhile and across rewrites and deletes, a process writes strictly increasing generations, and none that is on disk when it is written |
| `Roll.AppendLastsUnlessCopied` | packages/history-store/src/duckdb-backend.ts:235-326 | append does not wait for a roll: with no row to spare, rows appended are sure to last exactly when no copy waits for its staging file to be removed (and no delete is under way) |
| `Roll.AppendAfterCopyIsLost` | packages/history-store/src/duckdb-backend.ts:319-326 | an append between the copy and the removal of the staging file is lost: a concrete run |
| `Roll.Partition.Generations` | packages/history-store/src/duckdb-backend.ts:663-686 | the generations on disk and the highest of them |
| `Roll.Partition.Append` | packages/history-store/src/duckdb-backend.ts:252-254 | rows are added to the staging file, and last unless a copy waits for its removal |
| `Roll.Partition.ListForRoll` | packages/history-store/src/duckdb-backend.ts:289-306 | a roll with nothing staged does nothing; otherwise a generation above every one on disk or given out before |
| `Roll.Partition.CopyForRoll` | packages/history-store/src/duckdb-backend.ts:312-321 | the next generation holds the previous one and the staging file |
| `Roll.Partition.UnstageForRoll` | packages/history-store/src/duckdb-backend.ts:325-327 | the staging file is removed after the copy, and no row required with it |
| `Roll.Partition.DropForRoll` | packages/history-store/src/duckdb-backend.ts:340 | a generation before the one written is removed, and no row required with it |
| `Roll.Partition.Restage` | packages/history-store/src/duckdb-backend.ts:434-437 | a rewrite makes the staging file the only source, and its rows those required |
| `Roll.Partition.DropForRewrite` | packages/history-store/src/duckdb-backend.ts:438 | a rewrite removes a generation it listed, and no row required with it |
| `Roll.Partition.FailCopy` | packages/history-store/src/duckdb-backend.ts:319-321 | a copy that fails writes nothing, and its generation is not given out again |
| `Roll.Partition.ListForRewrite` | packages/history-store/src/duckdb-backend.ts:438 | a rewrite lists the generations it will remove |
| `Roll.Partition.EndRewrite` | packages/history-store/src/duckdb-backend.ts:440 | the earlier-format file goes last, and the rows required stay staged |
| `Roll.Partition.ListForDelete` | packages/history-store/src/duckdb-backend.ts:411-415 | a delete lists the generations it will remove; no row is required any more |
| `Roll.Partition.DropForDelete` | packages/history-store/src/duckdb-backend.ts:415 | a delete removes a generation it listed |
| `Roll.Partition.EndDelete` | packages/history-store/src/duckdb-backend.ts:416-417 | a delete removes the staging and earlier-format files |
| `Roll.Partition.Restart` | packages/history-store/src/duckdb-backend.ts:163-203 | after a crash the files are what is left, and they hold every row required |
| `Roll.Partition.RollAll` | packages/history-store/src/duckdb-backend.ts:286-344 | a roll run from start to end with nothing between leaves one generation, an empty staging file and the same rows |
| `GridIndex.PositionIsInItsCell` | packages/hot-spatial-index/src/index.ts:79-93 | a position of the world lies in the box of its cell, the last row and column closed |
| `GridIndex.FindsAllIffSearchable` | packages/hot-spatial-index/src/index.ts:134-171 | the cell of every position in a box is a candidate, on both ways of enumerating and across the antimeridian, exactly when the box is empty, or does not start at the pole and either does not start at 180 or reaches round to the last column |
| `GridIndex.SharedPositionIntersects` | packages/world-model/src/geo.ts:122-137 | boxes that share a position intersect, however they cross the antimeridian |
| `GridIndex.IntersectingShare` | packages/world-model/src/geo.ts:122-137 | and boxes that intersect, with their south no further north than their north, share a position |
| `GridIndex.Grid.Upsert` | packages/hot-spatial-index/src/index.ts:95-112 | the item replaces the one of its id; every item is in exactly the cell of its position and no cell is empty |
| `GridIndex.Grid.Remove` | packages/hot-spatial-index/src/index.ts:114-122 | the item is gone, the same holds, and the result says whether it was there |
| `GridIndex.Grid.Get` | packages/hot-spatial-index/src/index.ts:124-126 | the item of an id, if it is held |
| `GridIndex.Grid.Clear` | packages/hot-spatial-index/src/index.ts:128-131 | the index is empty |
| `GridIndex.Grid.CellsOfPart` | packages/hot-spatial-index/src/index.ts:143-169 | one part's candidates not met yet, by cells or by rows and columns |
| `GridIndex.Grid.CandidateCells` | packages/hot-spatial-index/src/index.ts:134-171 | the candidate cells of a box, each once |
| `GridIndex.Grid.WithinBounds` | packages/hot-spatial-index/src/index.ts:178-192 | the items found are wanted, held and distinct; without a limit, or short of it, they are all the wanted items in candidate cells, and all a linear scan gives when the box is searchable |
| `GridIndex.WantedWhen` | packages/hot-spatial-index/src/index.ts:178-192 | an item is wanted exactly when its kind is one asked for and it lies in one of the parts of the box that do not cross the antimeridian |
| `PlaceIndex.MatchEntry` | packages/offline/src/place-index.ts:172-199 | the loops over query tokens and entry tokens give the score and kind of the match |
| `PlaceIndex.MatchesWhen` | packages/offline/src/place-index.ts:172-199 | an entry matches exactly when its code is the query or it carries every token of the query, whole or as a prefix |
| `PlaceIndex.ExactBeatsOthers` | packages/offline/src/place-index.ts:141-199 | an exact name scores at least as high as any match that is not by code |
| `PlaceIndex.KindDecides` | packages/offline/src/place-index.ts:172-199 | a code scores 3, an exact name 2.5, a prefix of a name above 1 and up to 2, an overlap above a half and up to 1; each is taken when those before it do not match |
| `PlaceIndex.PartialIs` | packages/offline/src/place-index.ts:180-188 | a query token counts one when the entry has it, else from two letters on a half and half its part of the shortest token it starts, else nothing |
| `PlaceIndex.RankedIs` | packages/offline/src/place-index.ts:202-222 | the best scores first and names in order within a score; each hit is of an entry that matches and a wanted kind, with its score; none twice; at most as many as asked, 1 to 200 and 10 by default; and what is left out comes after all given, when they are that many |
| `PlaceIndex.WordsAre` | packages/offline/src/place-index.ts:287 | the words of a text hold no space, and make it up with one between each and the next |
| `PlaceIndex.CandidatesRankAsAll` | packages/offline/src/place-index.ts:202-222 | candidates that have every matching entry, in any order, rank as all entries do |
| `PlaceIndex.AddingInTurn` | packages/offline/src/place-index.ts:249-273 | adding one list and then another is adding both: the first entry of an id wins |
| `PlaceIndex.AddedHas` | packages/offline/src/place-index.ts:249-273 | what was there stays, and every id added is there, once |
| `PlaceIndex.FirstIsAdded` | packages/offline/src/place-index.ts:249-273 | an entry added is the first of its id among the new ones, and there was none of it |
| `PlaceIndex.Index.Add` | packages/offline/src/place-index.ts:249-273 | the entries with new ids are added, the indexes follow, and the sorted tokens are forgotten when any was added |
| `PlaceIndex.Index.TokensWithPrefix` | packages/offline/src/place-index.ts:323-336 | exactly the tokens with the prefix, as one block of the sorted tokens, sorted again after an add |
| `PlaceIndex.Index.Candidates` | packages/offline/src/place-index.ts:287-297 | exactly the entries with the code or carrying the first token, each once |
| `PlaceIndex.Index.Get` | packages/offline/src/place-index.ts:243-246 | the entry of an id, if there is one |
| `PlaceIndex.Index.Search` | packages/offline/src/place-index.ts:283-305 | nothing for an empty text; else the hits of scoring every entry and ranking the ones that match |
| `EventStore.UpsertKeepsTheNewest` | packages/event-engine/src/store.ts:63-72 | replacing by id and keeping the newest: the list stays in order, has the other events and the new one, and leaves out only events that come after all those kept |
| `EventStore.InOrderIs` | packages/event-engine/src/store.ts:155-161 | in order means a later start first, and those that start together by id |
| `EventStore.InsertSortsIffItParses` | packages/event-engine/src/store.ts:155-171 | among events whose times parse an insertion keeps the order exactly when the new one's time parses |
| `EventStore.UnparseableLosesOrder` | packages/event-engine/src/store.ts:155-171 | after an event whose time does not parse an older event is put before a newer one: a concrete list, reached by insertions |
| `EventStore.InsertionIndex` | packages/event-engine/src/store.ts:162-171 | the binary search loop gives the place the recursive search does |
| `EventStore.SearchFinds` | packages/event-engine/src/store.ts:162-171 | in a sorted list all events before the place found come before the event, and none after it does |
| `EventStore.Store.Link` | packages/event-engine/src/store.ts:122-128 | the event is in the list at its place and in the three indexes, which stay exact inverses |
| `EventStore.Store.Unlink` | packages/event-engine/src/store.ts:130-136 | the event is gone from the list and the three indexes, which stay exact inverses |
| `EventStore.Store.Evict` | packages/event-engine/src/store.ts:138-143 | the list is cut to its first events, with the indexes |
| `EventStore.Store.Upsert` | packages/event-engine/src/store.ts:63-72 | the outcome, unchanged exactly when the event says what the one of its id does but for when it was received; and the list: unchanged, or the event in place of the one of its id and the list cut to its bound; the indexes follow, and the order is kept when the event's time parses |
| `EventStore.Store.Remove` | packages/event-engine/src/store.ts:74-79 | the event of an id is gone, the order is kept, and the result says whether it was there |
| `EventStore.Store.OfType` | packages/event-engine/src/store.ts:51-55 | the events of a type, each once and in the list's order |
| `EventStore.Store.ForObject` | packages/event-engine/src/store.ts:57-61 | the events that name an object, each once and in the list's order |
| `Paths.PathRoundTrip` | packages/connector-sdk/src/path.ts:39-108 | a path printed and parsed is the same path exactly when its text is at most 256 characters, it has at most 32 segments, no key has a closing bracket, no index is so large that it is printed with an exponent, and its first key is not $ |
| `Paths.TextParses` | packages/connector-sdk/src/path.ts:44-78 | printed segments are parsed back unless a key has a closing bracket or an index an exponent, and then refused |
| `Paths.DottedParses` | packages/connector-sdk/src/path.ts:39-79 | keys between dots, whatever else is in them, are those keys, and $. before them stands for the record |
| `Paths.PathText` | packages/connector-sdk/src/path.ts:99-108 | what each segment adds to a printed path: a dot before a key that is a word, quotes round another, brackets round an index, and $ for none |
| `Paths.DollarIsLost` | packages/connector-sdk/src/path.ts:43-46 | a first key $ reads as the record itself and is lost |
| `Paths.QuoteRoundTrip` | packages/connector-sdk/src/path.ts:55-105 | a quoted key is unquoted to itself, and is none without its closing quote |
| `Paths.FormatPath` | packages/connector-sdk/src/path.ts:99-108 | the loop prints the segments one after another |
| `Paths.Parse` | packages/connector-sdk/src/path.ts:39-79 | the loop over the text gives the segments the grammar says, or refuses the path |
| `Paths.ReadPath` | packages/connector-sdk/src/path.ts:81-97 | the value at the end of a path, or nothing when a step is missing |
| `Paths.ReadIsAtTheEnd` | packages/connector-sdk/src/path.ts:81-97 | what a path reads is what stands at the end of the trail of values it goes along, each in the one before under its key, or at its index from the front or, negative, from the end; without such a trail it reads nothing |
| `Paths.ReadOnward` | packages/connector-sdk/src/path.ts:81-97 | reading along one path and then another is reading along both |
| `Jpeg.FirstJpegFrame` | packages/camera-gateway/src/image.ts:40-65 | for every cutting of a stream into chunks: a frame is the first start marker through the first end marker after it, too large means the limit was passed first, and not an image that the whole stream has no frame |
| `Jpeg.ScanGoesOn` | packages/camera-gateway/src/image.ts:46-63 | going on from the last byte misses no marker cut in two by a chunk's end |
| `Jpeg.FrameStays` | packages/camera-gateway/src/image.ts:40-65 | what comes later does not change the frame |
| `Jpeg.FrameIsOne` | packages/camera-gateway/src/image.ts:36-65 | a stream has one first frame |
| `Jpeg.FrameBytes` | packages/camera-gateway/src/image.ts:36-70 | a frame begins with FF D8, of which there is none earlier in the stream, and ends with FF D9, of which there is none between |
| `Jpeg.HasFrameWhen` | packages/camera-gateway/src/image.ts:36-70 | a stream has a frame exactly when an FF D9 comes after an FF D8 and its two bytes |
| `Jpeg.IndexOfMarker` | packages/camera-gateway/src/image.ts:67-70 | the first marker at or after a place |
| `Jpeg.Join` | packages/camera-gateway/src/image.ts:72-85 | the chunks as one |

## Left out

- `tileRangeForBounds`, haversine distances, `circleBounds`, and with them `withinRadius`, `nearest` and `withinRegion` of the grid and `nearest` of the places: geodesy over floating point.
- Contour interpolation and rounding, the nesting of rings into polygons (`assemble`), and the reading of axes before the grid is filled.
- `onProgress`, abort signals, the SHA-256 of the archive written and `directoryBytesRead`: they do not change the bytes.
- The bodies of reads, network errors and timeouts: a read gives its bytes or fails.
- The encoder's and decoder's column loops, and the planner's inner loops, are methods of their own rather than one body.
- DirectoryTree.TreeLookup: for compressed leaves stops at five hundred million entries, twenty-five times what a selection may ask for; past it a leaf could be larger than the reader will decompress, as far as the laws of gzip say.
- HistoryStore.Store: the order of two callbacks waiting for one promise is left open (every order is allowed), a backend's append does not throw before its first await and reports as many rows as it was given, and logging, `open`, the backend's own flush and close, and the retention sweep that runs under the lock are not modelled.
- HistoryStore.RetryIsAcceptedOnlyIfNotNeeded: is about an observation sent alone; in a batch a later row of the same object can change what is remembered.
- HistoryQueue.SiftKeepsWhatIsNew: is stated while the memory of fingerprints does not start over; when it does, past half a million objects, rows that repeat may be kept too, and none that is new is skipped.
- The fingerprint of an observation is a number it comes with; that two observations have one by chance is not modelled.
- Roll.StepKeeps: asks that no append falls between the copy and the removal of the staging file, nor into a delete, and that a rewrite or delete does not overlap a roll, as the source's waiting and lock intend; it does not claim that no row is held twice, which a crash after the copy makes false.
- The partition index and its metadata (row counts, byte counts, minima and maxima) of both backends, reconciliation at startup, and the SQL queries.
- ThinFile.ThinPartition: the size in bytes and the entry in the index are not modelled; rows are thinned under the store's lock, so both passes read one file.
- Retention.PlanThinning: times that do not parse are not modelled, nor ordinals past 32 bits.
- Scan.ScanObjectsAt: asks that partitions' minima and maxima bound their rows, that a printed or foreign line can be peeked only for what its row says (proved of printed rows), and that an object's rows are told apart by time, receipt and id.
- The scan functions for counts, availability and observations in a range, which filter and sum.
- GridIndex.Grid.WithinBounds: the equality with a linear scan is for items in the world; `upsert` also takes positions outside it.
- PlaceIndex.Index.Search: asks that the order of names puts no two entries level.
- EventStore: the query executor (`list`) and `related`; fingerprints are compared as the events without their time of receipt.
- Paths: the cache of parsed paths is left out, and the digits of an index past the safe integers are those of the whole number; an index printed with an exponent is shown with its first digit only.
- The camera relay, stream addresses, image types, and all input, output, settings and diagnostics.
