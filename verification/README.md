# Verified model of the DarkReNamer cores

This Dafny project models five parts of DarkReNamer, a bulk rename workbench, and proves what they promise.

- **The workbench list** (`LegacyListModel`, `ListRuns`, `Batch`, `Proposals`, `ListState`, `Paths`, `LeafName`, `MoveRows`, `SortModes`, `CycleSort`, `Replacement`, `ImportExport`): a list of rows with two cached totals, atomic edits, an in-place permutation sort, row moves, text replacement, and name import and export. `AppendIndex` is the chunked sorted index that answers duplicate questions; `SourceProtocol` proves over all runs, with any number of lists and indexes, that an index that reads as current is exact.
- **The preview cache** (`PreviewModel`, `PreviewCache`): diagnoses of all rows, grouped by destination. One-row edits keep the cache equal to a full rebuild.
- **Source admission** (`AdmissionModel`, `AdmissionWalk`, `AdmissionRun`, `AdmissionSteps`, `AdmissionComplete`, `Admission`, `AdmissionSort`): a bounded walk over an explicit stack as a run of steps, refined against a recursive listing; the exact condition for a report without issues; and the cancellable merge sort.
- **The diagnostic display** (`ConfirmationDisplay`): an escaping printer with a left inverse, and an elider within a budget of UTF-16 units. Surrogates follow section 2.2 of RFC 2781.
- **Two machines**: the icon request slots (`IconRequests`) and the role graph of the tooling manifest (`ToolingGraph`).

`Orders`, `Picking`, `Machine`, `Polling` and `Wrappers` hold what several parts share: stable orders and permutations, picked positions, machine integers, cancellation polls, and the optional value.

Comparators of texts are arbitrary total preorders. Allocation failures and cancellation polls are arbitrary answers, one per request. A new `Arc` is a token that nothing has held before. Classes carry the fields of the program and their methods are proved against functions on values; the theorems about runs are about those functions.

## Where the code differs from its comments or from an expected law

- `record_move_success` says that the planned-path length is unchanged. It is, exactly when the last backslash of the planned path follows no other separator (`Paths.MovedRowIsSettled`); otherwise it grows or shrinks by one unit (`Paths.MovedUnits`). `Paths.SlashSourceLosesTrack` shows sources whose rows lose track, and `LegacyListModel.LostUnitUnderflows` what that does to the cached total. Over whole runs the totals stay exact if and only if every recorded move has a safe name, when the sources rejoin (`ListRuns.RunStaysExactly`). A validated name below a tidy parent is always fine (`LeafName.AcceptedNameMoves`), and unified parents are tidy (`Paths.NormalizedParentIsTidy`).
- The error of a replacement that is too long is documented to carry the exact requested length; it carries the length at the first segment that passes the limit. `Replacement.RequestedFallsShort` shows that it is 400 where 600 are requested; the two agree exactly when nothing follows that segment (`Replacement.RequestedIsExact`).
- Moving rows earlier and then later is not always the identity: a selection with the first row does not move earlier but may move later (`MoveRows.EarlierThenLater`).
- The legacy size order is a total preorder exactly on sizes within half a turn of the 32-bit circle (`SortModes.ModesArePreorders`); `SortModes.LegacySizesCanCycle` shows three that no order sorts.
- The aggregate error of `reset_destination_parents` cannot occur, because the planned paths are checked first (`LegacyListModel.LegacyList.ResetDestinationParents`).
- An admission walk that has used up its capacity reports the limit at the next directory, even an empty one (`AdmissionRun.StopsWhenFull`, `AdmissionComplete.EmptyDirectoryMeetsLimit`). What the report then misses is exactly the rows from that directory on, possibly none (`AdmissionComplete.FullWalkDropsTheRest`).

## Model

| member | source | states |
|---|---|---|
| LegacyListModel.LegacyList.AppendBatchIndexed | crates/darknamer-core/src/lib.rs:1001-1119 | the new rows are the one-at-a-time insertion of the new items: each item whose path equals no pre-batch row as often as the batch holds it, every other item never; a refusal names the first name too long or the total over its budget, or an allocation; on every refusal the list is untouched and the index is as it was or cleared; on success the index holds exactly the sources of the list |
| LegacyListModel.LegacyList.StageBatch | crates/darknamer-core/src/lib.rs:1009-1104 | the staged tail and totals before anything is written, and why staging refuses |
| Batch.SortedBatchIsLegacyFold | crates/darknamer-core/src/lib.rs:1047-1054 | any sort by path and then later position first is the original insertion before the first not-smaller key |
| Batch.FoldOrderMeaning | crates/darknamer-core/src/lib.rs:1047-1054 | the fold as a permutation of positions in that order |
| Batch.FoldKeepsRows | crates/darknamer-core/src/lib.rs:1023-1037 | the insertion loses and invents no accepted row |
| LegacyListModel.AcceptBatch | crates/darknamer-core/src/lib.rs:1023-1037 | keeps the batch at exactly the positions whose path compares equal to no row listed before the batch, in order |
| Batch.AcceptedMeaning | crates/darknamer-core/src/lib.rs:1023-1037 | the accepted items by position: those that no source compares equal to |
| Batch.TailAddsNew | crates/darknamer-core/src/lib.rs:1023-1054 | the appended rows counted: new items with their multiplicity in the batch, listed ones never |
| Picking.PickedOnce | crates/darknamer-core/src/lib.rs:1023-1037 | which positions are kept determines what is kept |
| LegacyListModel.CheckBatch | crates/darknamer-core/src/lib.rs:1056-1089 | accepts exactly the tails whose names and totals fit; a refusal names the first name too long, or the total |
| LegacyListModel.LegacyList.RemoveRows | crates/darknamer-core/src/lib.rs:1122-1153 | keeps the rows at exactly the unselected positions in order, keeps both totals exact, and makes indexes stale if anything went |
| LegacyListModel.UnselectedMeaning | crates/darknamer-core/src/lib.rs:1130-1148 | the kept rows by position |
| LegacyListModel.LegacyList.MoveRowsEarlier | crates/darknamer-core/src/lib.rs:1164-1182 | the in-place swaps are the specified move; rows and totals survive |
| LegacyListModel.LegacyList.MoveRowsLater | crates/darknamer-core/src/lib.rs:1192-1210 | the same for the other direction |
| LegacyListModel.LegacyList.SortByWithSemantics | crates/darknamer-core/src/lib.rs:2016-2084 | the list becomes the stable sort, and the answer is true exactly when the row sequence changed; for legacy sizes whenever they lie on one half turn of the 32-bit circle |
| LegacyListModel.LegacyList.SetManualProposal | crates/darknamer-core/src/lib.rs:1247-1291 | accepted exactly when the name and both new totals fit; then one name changed and the totals are exact; else nothing changed and the error names the first of them that does not fit, with its amount |
| LegacyListModel.LegacyList.RecordMoveSuccess | crates/darknamer-core/src/lib.rs:1297-1320 | the row takes its planned path; the cached totals stay right and within budget if and only if the planned path rejoins and its name fits, where the comment at 1316 claims it without condition |
| LegacyListModel.MoveKeepsConsistency | crates/darknamer-core/src/lib.rs:1314-1318 | the same condition on the totals, for every list and row |
| LegacyListModel.LostUnitUnderflows | crates/darknamer-core/src/lib.rs:1149-1150 | when the planned path of the moved row has no backslash, the true path total exceeds the cached one by one unit, and a removal then takes more from the cache than it holds if and only if it keeps no row |
| ListRuns.RunStaysExactly | crates/darknamer-core/src/lib.rs:1297-1320 | over every run fed with sources that rejoin, the totals are exact and within budget in every state if and only if every recorded move has a safe name: one without a backslash, or with its last backslash behind something that is no separator |
| ListRuns.StepIsExact | crates/darknamer-core/src/lib.rs:1001-2233 | one operation leads from a well-kept list to a well-kept one, or breaks the totals, exactly by an unsafe recorded move |
| ListRuns.Perform | crates/darknamer-core/src/lib.rs:1001-2233 | every operation of the list class is a step of such a run |
| ListRuns.EffectKeepsSettling | crates/darknamer-core/src/lib.rs:1297-1320 | rows keep a tidy parent and a source that rejoins under every operation |
| ListRuns.AcceptedNameIsSafe | crates/darknamer-core/src/windows_leaf_name.rs:55-100 | a validated leaf name is safe |
| ListRuns.SafeNameDecides | crates/darknamer-core/src/lib.rs:1297-1320 | below a tidy parent the name alone decides whether a move keeps the planned length |
| LegacyListModel.LegacyList.TryChangeProposals | crates/darknamer-core/src/lib.rs:2175-2233 | all rows or none: success exactly when no row refuses and everything fits, unless memory runs out; reports exactly the changed rows in ascending order, and a refusal is that of the first row that fails |
| LegacyListModel.LegacyList.ChangeProposals | crates/darknamer-core/src/lib.rs:2130-2159 | the non-lengthening edit: every name transformed, exact changed rows, exact totals |
| LegacyListModel.LegacyList.ClearName | crates/darknamer-core/src/lib.rs:1418-1428 | each name becomes its extension |
| LegacyListModel.LegacyList.DeleteExtension | crates/darknamer-core/src/lib.rs:1712-1722 | each name becomes its stem |
| LegacyListModel.LegacyList.ResetProposals | crates/darknamer-core/src/lib.rs:1218-1225 | each name becomes the current one, or nothing changes because that would not fit |
| LegacyListModel.LegacyList.ReplaceComplete | crates/darknamer-core/src/lib.rs:1332-1350 | each name is its substitution, or nothing changes because some name or total would not fit |
| LegacyListModel.LegacyList.ImportNames | crates/darknamer-core/src/lib.rs:2107-2127 | the first rows take the parsed lines, the rest keep their names, or nothing changes |
| LegacyListModel.ImportOwnExport | crates/darknamer-core/src/lib.rs:2088-2127 | importing the own export changes no row when all names are lines |
| LegacyListModel.LegacyList.ExportNames | crates/darknamer-core/src/lib.rs:2088-2090 | parsing the exported names gives them back when all are lines |
| LegacyListModel.LegacyList.UnifyDestinationParent | crates/darknamer-core/src/lib.rs:1850-1895 | every row gets the destination without its trailing separators, but for one backslash after nothing or a colon, and the exact new total; or nothing changes and a budget or memory is the reason |
| LegacyListModel.UnifiedTotals | crates/darknamer-core/src/lib.rs:1858-1864 | the product formula is the sum of planned paths over the rows |
| LegacyListModel.LegacyList.ResetDestinationParents | crates/darknamer-core/src/lib.rs:1907-1976 | every row gets its source parent or nothing changes; the aggregate parent budget error at 1955 cannot occur |
| LegacyListModel.StageSourceParents | crates/darknamer-core/src/lib.rs:1931-1968 | staging a parent per row, with shared parents counted once |
| LegacyListModel.LegacyList.Clear | crates/darknamer-core/src/lib.rs:880-889 | empties the list and makes indexes stale if there were rows |
| LegacyListModel.LegacyList.Clone | crates/darknamer-core/src/lib.rs:773-784 | the same rows under a new identity |
| ListState.ReorderedIsConsistent | crates/darknamer-core/src/lib.rs:2016-2084 | reordering rows keeps names, budgets and totals |
| Proposals.StageProposals | crates/darknamer-core/src/lib.rs:2175-2233 | staging succeeds exactly for acceptable edits and computes the totals of the result |
| Proposals.CommitProposals | crates/darknamer-core/src/lib.rs:2222-2233 | writing the staged names yields the proposed rows and lists exactly those that differ |
| Proposals.AcceptableWhenFits | crates/darknamer-core/src/lib.rs:2175-2233 | an edit with a known outcome is acceptable exactly when that outcome fits |
| Proposals.SameTrouble | crates/darknamer-core/src/lib.rs:2175-2233 | the error of a refused edit in terms of the wanted rows: the first budget they break, row by row and the path total last |
| Proposals.StemExtensionMeaning | crates/darknamer-core/src/lib.rs:2432-2455 | stem and extension make up the name, the extension starts at the last dot |
| Proposals.LeafExtension | crates/darknamer-core/src/lib.rs:2432-2455 | the extension of a file begins at the last dot, and the stem is what stands between the last backslash and that dot |
| Proposals.NoExtension | crates/darknamer-core/src/lib.rs:2432-2455 | a directory and a name without a dot have none |
| Proposals.HeadExtension | crates/darknamer-core/src/lib.rs:2432-2455 | a last dot before the last backslash leaves no stem |
| Paths.SplitThenJoin | crates/darknamer-core/src/lib.rs:2354-2430 | parent and name give the path, or a path of the same length, back if and only if the last backslash follows no other separator |
| Paths.PiecesMeaning | crates/darknamer-core/src/lib.rs:2354-2430 | the name follows the last backslash; the parent comes before it and keeps it only after nothing or a colon |
| Paths.TidyMoveRejoins | crates/darknamer-core/src/lib.rs:2358-2384 | a separator-free name below a tidy parent is such a path |
| Paths.MovedRowIsSettled | crates/darknamer-core/src/lib.rs:1297-1320 | after a recorded move the row plans no change, and its planned length is the same, if and only if the planned path rejoins |
| Paths.MovedPieces | crates/darknamer-core/src/lib.rs:1297-1320 | the row a recorded move leaves: the planned path as source, its last component as both names, what comes before as parent |
| Paths.SlashParentLosesTrack | crates/darknamer-core/src/lib.rs:1314-1319 | below a parent that ends in a slash and holds no backslash the move swallows the parent into the name, and the planned length grows by one while the cached total does not |
| Paths.MovedUnits | crates/darknamer-core/src/lib.rs:1314-1319 | the exact change of the planned length for every row: one more without a backslash in the planned path, one less when its last backslash follows a separator, none otherwise |
| Paths.ParentDecides | crates/darknamer-core/src/lib.rs:1297-1320 | for a name without a backslash the parent alone decides: it ends in no separator, or rejoins itself |
| Paths.SlashSourceLosesTrack | crates/darknamer-core/src/lib.rs:1297-1320 | a source such as `a/\b` gives such a row as soon as it is added |
| Paths.RejoiningParentIsTidy | crates/darknamer-core/src/lib.rs:1297-1320 | the parent of a path that rejoins is tidy |
| Paths.ChangeKindMeaning | crates/darknamer-core/src/lib.rs:270-308 | what each of the four kinds of change says about planned path, name and parent |
| Paths.NewRowMeaning | crates/darknamer-core/src/lib.rs:173-195 | a new row proposes its own name and parent, so it plans a change only if its source does not rejoin, and then a move |
| Paths.MatchesSourceMeaning | crates/darknamer-core/src/lib.rs:2404-2421 | the comparison by pieces is equality of the planned path and the source |
| Paths.NormalizedParentIsTidy | crates/darknamer-core/src/lib.rs:2386-2402 | normalizing a destination yields a tidy parent, is idempotent, and measures what it keeps |
| Paths.NormalizedParentIsNormal | crates/darknamer-core/src/lib.rs:2386-2402 | every unit up to the last one that is no separator is kept, and one backslash stays when nothing or a colon comes before the cut |
| LeafName.AcceptedNameMoves | crates/darknamer-core/src/windows_leaf_name.rs:55-136 | an accepted name below a tidy parent survives the move as the name, within 255 units |
| LeafName.ValidateMeaning | crates/darknamer-core/src/windows_leaf_name.rs:55-136 | a name is accepted if and only if it breaks none of the eight rules, and refused with the first it breaks; the rules are stated in literal units and device names |
| LeafName.DeviceMeaning | crates/darknamer-core/src/windows_leaf_name.rs:102-136 | the device names, in either case, with the superscript ports |
| AppendIndex.LegacyAppendIndex.Contains | crates/darknamer-core/src/lib.rs:631-633 | true exactly when some indexed source compares equal, wherever equal keys fall |
| AppendIndex.SourceChunksContain | crates/darknamer-core/src/lib.rs:714-733 | the search by chunk and then inside it decides membership in the whole index |
| AppendIndex.LegacyAppendIndex.TryInsertSource | crates/darknamer-core/src/lib.rs:657-711 | one source more, at its place, still sorted and well shaped, with the counted relocations, at most 128; a refused allocation changes nothing |
| AppendIndex.RelocationsCountDisplaced | crates/darknamer-core/src/lib.rs:680-709 | the relocations count every entry whose chunk or offset changes; only the second half of a split chunk can count twice |
| AppendIndex.EntryIsAtNewPlace | crates/darknamer-core/src/lib.rs:680-709 | where each entry of the chunk is found after the insertion |
| AppendIndex.SplitKeepsPlace | crates/darknamer-core/src/lib.rs:687-706 | splitting a full chunk moves the place of a source but no entry |
| AppendIndex.TryChunkSortedSources | crates/darknamer-core/src/lib.rs:735-754 | packing keeps the sorted order and the chunk shape |
| AppendIndex.ChunkCount | crates/darknamer-core/src/lib.rs:635-711 | n sources fill fewer than n / 64 + 1 chunks |
| SourceProtocol.CurrentMeansExact | crates/darknamer-core/src/lib.rs:568-585 | over every run with any lists and indexes, a current index holds exactly the sources of its list and answers exactly the duplicate question |
| SourceProtocol.SourceChangeMakesStale | crates/darknamer-core/src/lib.rs:891-898 | after a source change no index is current for that list, revision overflow included |
| SourceProtocol.StaleStaysStale | crates/darknamer-core/src/lib.rs:568-585 | only an append through the index itself makes it current again |
| SourceProtocol.StepKeepsInv | crates/darknamer-core/src/lib.rs:1009-1119 | every operation keeps the record of what each identity and revision stood for |
| SourceProtocol.BumpedIsNew | crates/darknamer-core/src/lib.rs:891-898 | the next identity and revision never stood for anything before |
| SourceProtocol.AppendStep | crates/darknamer-core/src/lib.rs:1001-1119 | the append of the list is the append of that protocol |
| SourceProtocol.EditsKeepSources | crates/darknamer-core/src/lib.rs:1155-1225 | reordering and proposal edits keep the indexed sources |
| CycleSort.FollowCycles | crates/darknamer-core/src/lib.rs:2063-2077 | following the cycles in place yields the permuted rows, each open position settled once |
| CycleSort.FollowStep | crates/darknamer-core/src/lib.rs:2068-2076 | one step settles one position and loses no row |
| CycleSort.ChangedExactlyWhenReordered | crates/darknamer-core/src/lib.rs:2055-2061 | for a stable order the permutation is the identity exactly when the rows stay as they were |
| SortModes.ModesArePreorders | crates/darknamer-core/src/lib.rs:2025-2052 | every mode is a total preorder on the rows; for legacy sizes if and only if they lie on one half turn of the 32-bit circle |
| SortModes.CloseIsOnHalfTurn | crates/darknamer-core/src/lib.rs:2593-2595 | sizes that differ by less than 2^31 do |
| SortModes.SortedRowsMeaning | crates/darknamer-core/src/lib.rs:2025-2052 | what two rows of a sorted list look like in the sorted column, for every mode |
| SortModes.TiesMeaning | crates/darknamer-core/src/lib.rs:2025-2052 | two rows tie in a mode exactly when they agree in its column |
| SortModes.LegacySizeAgrees | crates/darknamer-core/src/lib.rs:2593-2595 | the wrapping comparison tells the numeric order if and only if the left size exceeds the right by less than 2^31 or falls short of it by at most 2^31 |
| SortModes.LegacySizesCanCycle | crates/darknamer-core/src/lib.rs:2038-2047 | three far-apart sizes that no order sorts |
| Orders.StableSortMeaning | crates/darknamer-core/src/lib.rs:2053-2054 | a stable sort is sorted, keeps every row and is unique |
| Orders.StableOrderUnique | crates/darknamer-core/src/lib.rs:2053-2054 | comparator and rows determine the stable order |
| Orders.StdSortBy | crates/darknamer-core/src/lib.rs:2054 | the library sort when it returns: a permutation for any comparator, the stable order for a preorder |
| AdmissionSort.SortPathsCancellable | crates/darknamer-app/src/admission.rs:468-542 | the bottom-up merge sort is the stable sort, drops no path, and leaves the paths alone when cancelled |
| AdmissionSort.MergeRuns | crates/darknamer-app/src/admission.rs:487-523 | two neighbouring runs become one, stably |
| AdmissionSort.RunsAfterDoubling | crates/darknamer-app/src/admission.rs:484-527 | saturated doubling only happens when one run covers everything |
| AdmissionSort.TakeInOrder | crates/darknamer-app/src/admission.rs:531-539 | no slot named by the order is found vacant, so the filter drops nothing |
| MoveRows.EarlierThenLater | crates/darknamer-core/src/lib.rs:1164-1210 | moving earlier and then the reported rows later restores every list if and only if the first row is not selected or the last one is too |
| MoveRows.EarlierMeaning | crates/darknamer-core/src/lib.rs:1164-1182 | nothing moves and the selection is reported if the first row or no row is selected; else every selected row stands one place earlier, and exactly those places are reported |
| MoveRows.LaterMeaning | crates/darknamer-core/src/lib.rs:1192-1210 | the same for the last row and the other direction |
| MoveRows.LaterUndoesEarlier | crates/darknamer-core/src/lib.rs:1172-1202 | the swaps undo each other |
| MoveRows.EarlierUndoesLater | crates/darknamer-core/src/lib.rs:1172-1202 | and in the other order |
| MoveRows.EarlierPositions | crates/darknamer-core/src/lib.rs:1172-1174 | every selected row moves by one and a skipped row passes the whole selected run |
| MoveRows.UnselectedKeepOrder | crates/darknamer-core/src/lib.rs:1172-1174 | unselected rows keep their relative order |
| MoveRows.LaterPositions | crates/darknamer-core/src/lib.rs:1200-1202 | which row every position holds after the later swaps |
| MoveRows.SelectedMoveLater | crates/darknamer-core/src/lib.rs:1200-1202 | every selected row moves later by one |
| MoveRows.UnselectedKeepOrderLater | crates/darknamer-core/src/lib.rs:1200-1202 | the unselected rows fill the other positions in their old order |
| Replacement.ReplacedUnits | crates/darknamer-core/src/lib.rs:2457-2505 | too long exactly when the substitution exceeds 255 units, with the length at the first segment that passes the limit; unchanged exactly when it equals the source; else the substitution itself |
| Replacement.CountReplaced | crates/darknamer-core/src/lib.rs:2466-2486 | the exact length, or the length at the first segment that passes the limit |
| Replacement.RequestedIsExact | crates/darknamer-core/src/lib.rs:2466-2486 | the rejected length is the requested one if and only if every later segment is empty |
| Replacement.RequestedFallsShort | crates/darknamer-core/src/lib.rs:396-397 | three matches replaced by 200 units each: the error can only say 400 where the documentation promises 600 |
| Replacement.StopIsDetermined | crates/darknamer-core/src/lib.rs:2466-2486 | the segments determine where the scan stops and at which length |
| Replacement.BuildReplaced | crates/darknamer-core/src/lib.rs:2492-2503 | the building pass returns the substitution |
| Replacement.SubstituteLength | crates/darknamer-core/src/lib.rs:2466-2486 | the length balance of a substitution |
| Replacement.UnchangedExactly | crates/darknamer-core/src/lib.rs:2488-2490 | a text is unchanged exactly when nothing occurs or needle and replacement are equal |
| Replacement.FirstReplaced | crates/darknamer-core/src/lib.rs:2492-2503 | the first occurrence is replaced and the substitution goes on behind it |
| Replacement.NotOccurring | crates/darknamer-core/src/lib.rs:2492-2503 | a text in which nothing occurs stays |
| Replacement.OccurrencesMeaning | crates/darknamer-core/src/lib.rs:2466-2490 | the scan matches exactly when the needle occurs somewhere |
| ImportExport.ParseUndoesExport | crates/darknamer-core/src/lib.rs:2312-2332 | lines that parsing would keep come back from their export |
| ImportExport.ReparseIsStable | crates/darknamer-core/src/lib.rs:2597-2605 | for every text, parsing the export of its lines gives the same lines |
| ImportExport.ParsedAreLines | crates/darknamer-core/src/lib.rs:2320-2332 | parsed lines are trimmed, nonblank and free of line feeds |
| ImportExport.ParseSplits | crates/darknamer-core/src/lib.rs:2320-2332 | a line feed separates what is parsed before it from what is parsed behind it |
| ImportExport.ParseLine | crates/darknamer-core/src/lib.rs:2320-2332 | a line gives its core between white space, a blank one nothing |
| ImportExport.TrimmedMeaning | crates/darknamer-core/src/lib.rs:2320-2332 | exactly the white space around a text is cut |
| ImportExport.ExportOne | crates/darknamer-core/src/lib.rs:2597-2605 | every exported line ends with carriage return and line feed |
| ImportExport.ExportSplits | crates/darknamer-core/src/lib.rs:2597-2605 | the export of a list is that of its parts |
| ImportExport.BoundedImportLines | crates/darknamer-app/src/admission.rs:131-152 | the first lines up to the limit, with an exact overflow flag |
| PreviewCache.PreviewIssueCache.RefreshOne | crates/darknamer-app/src/preview.rs:346-437 | refuses, changing nothing, exactly outside the boundary; else equals the full rebuild of the edited model, with the right diagnosis of every row, and reports the rows to repaint |
| PreviewCache.PreviewIssueCache.Refresh | crates/darknamer-app/src/preview.rs:278-339 | the loops build the cache that the definition gives, with the right diagnosis of every row |
| PreviewCache.PreviewIssueCache.ReplaceIssue | crates/darknamer-app/src/preview.rs:439-466 | replaces one issue and keeps the counters exact, so no subtraction saturates |
| PreviewCache.ReplayEdits | crates/darknamer-app/src/preview.rs:346-437 | over any run of edits neither cache ever falls back, and both end equal to a full refresh |
| PreviewCache.PreviewCountCache.RefreshOne | crates/darknamer-app/src/preview.rs:42-62 | rejects, unchanged, exactly when the length differs or the count would leave its range |
| PreviewCache.CountAfterEdit | crates/darknamer-app/src/preview.rs:42-62 | one edit moves the count of changed rows by its two flags and never out of range |
| PreviewCache.CountAfterReplace | crates/darknamer-app/src/preview.rs:439-466 | how every counter moves when one issue is replaced |
| PreviewCache.OnlyAffectedChange | crates/darknamer-app/src/preview.rs:371-424 | no row outside the old and the new group changes its issue |
| PreviewCache.AffectedMeaning | crates/darknamer-app/src/preview.rs:371-424 | the rows reported are exactly those that go to the old or the new place of the edited row |
| PreviewCache.CountChangedMeaning | crates/darknamer-app/src/preview.rs:42-62 | the count is the number of rows that plan a change |
| PreviewCache.PatchBegins | crates/darknamer-app/src/preview.rs:371-415 | after the patch only issues of affected rows are out of date |
| PreviewModel.GroupsAfterEdit | crates/darknamer-app/src/preview.rs:377-402 | moving one row between the groups is regrouping the edited keys |
| PreviewModel.EditIsLocal | crates/darknamer-app/src/preview.rs:371-424 | a row in neither group keeps its diagnosis |
| PreviewModel.DuplicateMeaning | crates/darknamer-app/src/preview.rs:554-566 | a row is a duplicate if and only if it plans a change, another row goes to the same place, and its name is not a rejected new one |
| PreviewModel.IssueMeaning | crates/darknamer-app/src/preview.rs:538-566 | when each of the four diagnoses is given, in terms of the row, the name rules and the other rows |
| PreviewModel.CountersMeaning | crates/darknamer-app/src/preview.rs:439-466 | the counters count the rows with each diagnosis, and a blocker is an invalid name or a duplicate |
| PreviewModel.GroupsMeaning | crates/darknamer-app/src/preview.rs:278-339 | a group holds exactly the rows that go to its place |
| Admission.Collect | crates/darknamer-app/src/admission.rs:624-839 | the report is that of a complete run of the walk from the sorted kept roots, so it keeps what runs promise; polls decide cancellation only, and a cancelled call shows nothing |
| Admission.InspectTop | crates/darknamer-app/src/admission.rs:665-836 | one turn of the loop is one step of the run, and the limit branch at 671 is never taken |
| Admission.ExpandDirectory | crates/darknamer-app/src/admission.rs:728-817 | a directory is replaced by its bounded sorted children with their flags, stops the walk, or is reported unreadable, as the step says |
| Admission.AdmitRow | crates/darknamer-app/src/admission.rs:820-836 | the row is added and its bytes reserved, or the walk stops |
| Admission.BoundedChildren | crates/darknamer-app/src/admission.rs:746-772 | the read cut to the count and then to the longest fitting prefix |
| Admission.VerifiedPrefix | crates/darknamer-app/src/admission.rs:750-772 | the longest prefix of children that fits the remaining bytes |
| Admission.ReadChildrenCancellable | crates/darknamer-app/src/admission.rs:370-385 | the default read polls before and after, and returns the plain read |
| Admission.ExamineCancellable | crates/darknamer-app/src/admission.rs:679-732 | the checks and polls on one candidate come to its verdict; a directory refused for its depth has been noted |
| Admission.PushPaths | crates/darknamer-app/src/admission.rs:653-662 | the paths are pushed in reverse with their measured bytes |
| AdmissionRun.RunPromises | crates/darknamer-app/src/admission.rs:636-838 | every complete run stays within count and bytes, holds only rows of candidates reached within 256 levels, and without issues is exactly the sorted recursive listing |
| AdmissionRun.IssueFreeMeaning | crates/darknamer-app/src/admission.rs:636-838 | so recursion without issues yields files only and direct mode one row per root |
| AdmissionRun.IssuesHaveReasons | crates/darknamer-app/src/admission.rs:665-836 | every issue is the surplus of the roots or was raised by a step that had the reason it states; a repeated directory has an earlier candidate with the same identity |
| AdmissionRun.RunsAgree | crates/darknamer-app/src/admission.rs:636-838 | the inputs determine the run |
| AdmissionRun.StopsWhenFull | crates/darknamer-app/src/admission.rs:728-736 | opening a directory stops the walk exactly when the capacity is used up |
| AdmissionRun.StepKeepsGood | crates/darknamer-app/src/admission.rs:665-836 | every step keeps bounds, bytes, reachability and the listing still to come |
| AdmissionSteps.StepMeaning | crates/darknamer-app/src/admission.rs:665-836 | what one turn of the loop does, case by case in the terms of the adapter and the run so far: which issue with which fault, when the walk stops, which children are pushed in which order and depth, which row is added |
| AdmissionSteps.StartMeaning | crates/darknamer-app/src/admission.rs:636-664 | how a run begins: the first roots the capacity allows, sorted, and an issue for the first beyond it |
| AdmissionSteps.SeenExactly | crates/darknamer-app/src/admission.rs:712-722 | a directory counts as met exactly when an earlier candidate that passed the checks had its identity |
| AdmissionComplete.IssueFreeExactly | crates/darknamer-app/src/admission.rs:636-838 | the exact condition for a report without issues, which is then the listing: everything can be listed, no directory is met twice, all candidates are within the capacity, which is not used up before a directory is opened, each directory then reads without errors and flags, and the bytes fit at every candidate; asked of the adapter is only that unflagged reads of the directories of the call are whole |
| AdmissionComplete.CollectsEverything | crates/darknamer-app/src/admission.rs:636-838 | with capacity to spare, bytes for every candidate, and directories of the call that read well, the report has no issues and is the listing |
| AdmissionComplete.HonestRead | crates/darknamer-app/src/admission.rs:746-772 | a bounded read of an honest directory is unflagged if and only if the read was and the whole directory fits |
| AdmissionComplete.DirectIssueFreeExactly | crates/darknamer-app/src/admission.rs:636-838 | in direct mode the condition is on the listing, the count, the bytes and the identities alone |
| AdmissionComplete.FullWalkDropsTheRest | crates/darknamer-app/src/admission.rs:728-736 | a directory that meets a used-up capacity costs exactly the rows from there on, and nothing when there are none |
| AdmissionComplete.EmptyDirectoryMeetsLimit | crates/darknamer-app/src/admission.rs:728-736 | one empty root directory and a capacity of one: the listing is empty and the limit is reported |
| AdmissionComplete.BelowIsListed | crates/darknamer-app/src/admission.rs:665-836 | the listing exists when no candidate below is refused, and then holds their rows |
| AdmissionComplete.AllBelowAddUp | crates/darknamer-app/src/admission.rs:653-662 | every candidate is a root or a child of one before it, in number and in bytes |
| AdmissionWalk.AdmissionKeeps | crates/darknamer-app/src/admission.rs:820-836 | admitting a row keeps the listing, the budget and the bounds |
| AdmissionWalk.ExhaustionKeeps | crates/darknamer-app/src/admission.rs:820-828 | the final reservation fails only if the roots did not fit or a legacy text outgrew its measured path |
| AdmissionWalk.ExpansionKeeps | crates/darknamer-app/src/admission.rs:745-809 | pushing the children keeps the listing, the depth limit and the bytes |
| AdmissionWalk.PushedListing | crates/darknamer-app/src/admission.rs:778-787 | what the pushed children list comes before what the stack lists |
| AdmissionModel.BoundedMeaning | crates/darknamer-app/src/admission.rs:746-772 | a bounded read is within both limits, is the whole read when that fits, and is flagged otherwise |
| AdmissionModel.RecurseListsAllFiles | crates/darknamer-app/src/admission.rs:719-819 | a recursive listing holds files only |
| AdmissionModel.DirectListsRoots | crates/darknamer-app/src/admission.rs:820-836 | a direct listing is one row per root, in order |
| AdmissionModel.PathBudget.ReserveUtf16Units | crates/darknamer-app/src/admission.rs:72-84 | reserves exactly when the bytes fit; a refusal uses up the rest |
| ConfirmationDisplay.DecodeUndoesShow | crates/darknamer-app/src/confirmation_display.rs:25-94 | decoding the full display gives back the exact units, unpaired surrogates and escape look-alikes included |
| ConfirmationDisplay.DisplayIsInjective | crates/darknamer-app/src/confirmation_display.rs:25-94 | different texts are shown differently |
| ConfirmationDisplay.ControlsAreEscaped | crates/darknamer-app/src/confirmation_display.rs:44-48 | no control, reordering or separating mark, ellipsis or replacement character, all listed by number, reaches the display raw |
| ConfirmationDisplay.EscapeShown | crates/darknamer-app/src/confirmation_display.rs:44-84 | those units, the brackets and surrogates outside pairs are shown as escapes |
| ConfirmationDisplay.PlainShown | crates/darknamer-app/src/confirmation_display.rs:50-84 | every other unit is shown as itself |
| ConfirmationDisplay.PairShown | crates/darknamer-app/src/confirmation_display.rs:50-66 | a surrogate pair is shown as its scalar |
| ConfirmationDisplay.EscapeReads | crates/darknamer-app/src/confirmation_display.rs:35-38 | an escape reads `[U+XXXX]` with four upper-case hexadecimal digits |
| ConfirmationDisplay.UnitsAreEncoded | crates/darknamer-app/src/confirmation_display.rs:25-33 | the length of a display is that of its UTF-16 encoding |
| ConfirmationDisplay.Tokens | crates/darknamer-app/src/confirmation_display.rs:50-84 | the loop produces the specified tokens |
| ConfirmationDisplay.ShowUnits | crates/darknamer-app/src/confirmation_display.rs:25-41 | the cost of tokens is the UTF-16 length of their display |
| ConfirmationDisplay.Render | crates/darknamer-app/src/confirmation_display.rs:96-165 | never longer than the budget; complete if it fits; otherwise two token-aligned slices in order with real omissions, holding as much around the focus as fits, shared out as the two helpers say |
| ConfirmationDisplay.RenderedOnce | crates/darknamer-app/src/confirmation_display.rs:96-165 | what the contract says of a display leaves no choice: tokens, focus and budget determine it |
| ConfirmationDisplay.GrowFocus | crates/darknamer-app/src/confirmation_display.rs:114-139 | a fitting focus is grown until neither neighbour fits: the left side first up to half of the room, then the right side, then the left side with what is over |
| ConfirmationDisplay.ShrinkFocus | crates/darknamer-app/src/confirmation_display.rs:140-162 | a focus that does not fit keeps its longest start within half of the room and its longest end within the rest |
| ConfirmationDisplay.EllipsisMeansOmission | crates/darknamer-app/src/confirmation_display.rs:96-165 | in the display of a text an ellipsis appears exactly when something is left out |
| ConfirmationDisplay.ElidedMeaning | crates/darknamer-app/src/confirmation_display.rs:131-162 | where the slices and the marks of an elided display stand |
| ConfirmationDisplay.DifferenceMeaning | crates/darknamer-app/src/confirmation_display.rs:174-189 | the difference begins behind the longest common start and ends before the longest common end |
| ConfirmationDisplay.Pair | crates/darknamer-app/src/confirmation_display.rs:174-196 | each text is rendered around its difference from the other; elided means that one of them does not fit, hidden that different texts look the same, and only elision can cause that |
| ConfirmationDisplay.SuffixMeaning | crates/darknamer-app/src/confirmation_display.rs:176-183 | the common end is the longest one within its limit |
| ConfirmationDisplay.Tail | crates/darknamer-app/src/confirmation_display.rs:198-200 | exact when it fits, else the longest end of the text that fits behind an ellipsis |
| IconRequests.RunKeeps | crates/darknamer-app/src/icon_requests.rs:80-240 | over every run: at most 64 slots, distinct keys, rising serials, current generations, conservation of accepted requests, single publication, nothing invalidated still held |
| IconRequests.PublicationIsFresh | crates/darknamer-app/src/icon_requests.rs:159-173 | whatever is published is current, unpublished before and never invalidated |
| IconRequests.RetirementIsForever | crates/darknamer-app/src/icon_requests.rs:209-214 | after retirement nothing is queued, completed, accepted or published again |
| IconRequests.RequestHasItsTurn | crates/darknamer-app/src/icon_requests.rs:148-173 | over every run that keeps its generation, a request with n others before it is what take number n+1 hands out, when each call before has been completed |
| IconRequests.FirstInFirstOut | crates/darknamer-app/src/icon_requests.rs:107-173 | requests are handed out in order of acceptance: what was handed out and what waits is what waited before and what was added |
| IconRequests.CompletionMeaning | crates/darknamer-app/src/icon_requests.rs:159-173 | when a completion is unexpected, published or discarded, and what it leaves |
| IconRequests.SubmitKeeps | crates/darknamer-app/src/icon_requests.rs:107-145 | submitting keeps all of it |
| IconRequests.ClearKeeps | crates/darknamer-app/src/icon_requests.rs:194-214 | invalidation keeps all of it and only the call in flight |
| IconRequests.DiscardKeeps | crates/darknamer-app/src/icon_requests.rs:159-173 | so does discarding a stale result |
| IconRequests.SubmissionMeaning | crates/darknamer-app/src/icon_requests.rs:107-145 | when each answer to a submission is given, in terms of the slots, and what an accepted one adds; any other changes nothing |
| IconRequests.IconRequests.SubmitKey | crates/darknamer-app/src/icon_requests.rs:107-145 | the method is that transition |
| IconRequests.IconRequests.Take | crates/darknamer-app/src/icon_requests.rs:148-155 | hands out the oldest waiting request if the machine is not retired and idle, and that request is then in flight |
| IconRequests.IconRequests.CompleteCall | crates/darknamer-app/src/icon_requests.rs:159-173 | frees the slot exactly for the token in flight, and adds the result exactly when it is published |
| IconRequests.IconRequests.AcknowledgeCompletions | crates/darknamer-app/src/icon_requests.rs:183-189 | the loop drops exactly the acknowledged prefix |
| IconRequests.IconRequests.Advance | crates/darknamer-app/src/icon_requests.rs:194-206 | the method is that transition, retiring on exhaustion |
| ToolingGraph.ParseGraph | scripts/tooling_bootstrap.py:524-571 | accepts exactly the manifests whose references are good and whose graph has no cycle; a refusal states the first fault |
| ToolingGraph.DependencyCheck.Visit | scripts/tooling_bootstrap.py:559-568 | a fault names a role on a real cycle; success extends a dependency order |
| ToolingGraph.OrderedIsAcyclic | scripts/tooling_bootstrap.py:556-571 | a dependency order excludes every cycle |
| ToolingGraph.CheckReferences | scripts/tooling_bootstrap.py:524-554 | reports the first fault of the first faulty entry: its unknown dependencies in order, its missing name, or its shortest ancestor that is missing or undeclared |
| ToolingGraph.JoinedPrefixIsAncestor | scripts/tooling_bootstrap.py:542-543 | joining the first components of a module name gives a prefix that ends before a dot |
| ToolingGraph.AncestorIsJoinedPrefix | scripts/tooling_bootstrap.py:542-543 | and every such prefix is reached |
| ToolingGraph.Selection.Select | scripts/tooling_bootstrap.py:617-622 | ends without a guard against cycles and adds exactly what the role reaches |
| ToolingGraph.VerifyTooling | scripts/tooling_bootstrap.py:604-627 | accepts exactly good manifests with distinct known required roles, and keeps the entries of the closure in manifest order |
| ToolingGraph.ChosenMeaning | scripts/tooling_bootstrap.py:624-627 | the selected entries by position |
| ToolingGraph.UnknownMeaning | scripts/tooling_bootstrap.py:533-537 | the unknown dependencies by position |
| ToolingGraph.LastEntryWins | scripts/tooling_bootstrap.py:524-530 | of several entries with one role the last stands for it |
| ToolingGraph.LastPackageWins | scripts/tooling_bootstrap.py:524-532 | and of several packages with one module name |
| ToolingGraph.ClosureIsLeast | scripts/tooling_bootstrap.py:615-625 | the closure is the least dependency-closed superset of the required roles |
| ToolingGraph.AncestorsAreSelected | scripts/tooling_bootstrap.py:540-554 | a selected Python module brings every package above it |

## Left out

- Other proposal edits (prefixes, suffixes, deletions, digit padding, sequence numbers, extensions to add or replace, parent folder names): they run through the same staged edit with another text per row.
- The number of imported lines that `import_names` returns beside the changed rows.
- `Vec` capacity and `shrink_to_fit`, and the sharing of equal destination parents through `Arc`: parents are values, and only their texts and lengths are modelled.
- Orders.StdSortBy: the library may panic on a comparison that is no total order, so a sort that returns is modelled; among the sort modes this concerns only legacy sizes that lie on no half turn of the circle.
- The sort of the standard library is a loop of its own with the contract of `sort_by`; `sort_unstable_by` is any sort by the given comparison.
- The reservations of one staging loop are answered in sequence by one function; which call in the program makes the failing one is not distinguished beyond that.
- Locale comparison and case folding: comparators are parameters.
- The destination-key callback of the preview cache gives one answer for each parent and name during the life of a cache.
- Preview labels, descriptions, notices and selected counts.
- Admission adapters: validation, metadata and reads are functions of the path and the read budget, so one walk sees an unchanging filesystem; the Windows adapter and its polls during enumeration, the progress callback, summaries, `bounded_selection` and `read_bounded_import` are not part of this model.
- AdmissionComplete.IssueFreeExactly: the measured paths of the roots are taken to be fewer than 2^64 bytes together, where the program's count would saturate.
- Long functions of the program are split into one method for each phase or loop; the polls and tests come in the same order.
- `difference_evidence`, `clip_diagnostic` and the display note.
- Icon results as a snapshot, and `pop_completion`, which only tests use; the worker thread itself.
- The manifest file itself: JSON, role allow-list, paths, digests, case collisions and the recursion limit of Python; `select` and `visit` are methods of small classes that hold the sets the nested functions share.
- The rename planner, the journal, the execution backends, windows and dialogs.
