# Google Drive file picker — a Dafny model

The application lists the files and folders of a Google Drive connection. The
user selects some of them and indexes them into a knowledge base, syncs that
knowledge base, or removes resources from it. This project models the
picker's client-side state and the logic that changes it:

- **Selection and cascade.** The selection hook's toggle, the recursive
  selection and deselection of a folder's known descendants, the child map,
  and the computation of the "leaf" resources that are sent for indexing.
- **Expansion.** The list of expanded folders.
- **Knowledge-base store.** The current knowledge base, whether it exists,
  whether a sync runs, and the history of earlier knowledge bases.
- **Status overlay.** The client's map from resource id to a `ResourceState`.
  The index, sync and remove handlers write it, the knowledge-base listing
  reconciles it, and the status badge displays it.
- **Rows and table.** The indeterminate checkbox, the disabled checkbox, when a
  folder's children are fetched, the search filter and the sort comparators.
- **The two pickers.** The picker the page renders (`app/components/filePickerKnowledge.tsx`)
  and its refactored sibling (`app/components/file-picker/`) are each a class
  whose methods are the handlers and effects. Each asynchronous handler is
  split at its network call into a start step and a finish step. The finish
  step gets the selection captured at the start, as the handler's closure does.
- **Legacy picker.** The untyped `FilePicker.tsx`: folder navigation with
  breadcrumbs, the file-type filter, its comparator and its selection toggle.
- **Creation route.** The server route that validates a creation request and
  builds the upstream payload with its defaults.

JavaScript's own semantics are written out where they matter:

- truthiness: `""` and absence are falsy, while an empty array is truthy;
- `||` against `??`;
- `split("/").filter(Boolean).pop() || ""`;
- `toLowerCase` on ASCII letters;
- `>` on strings;
- comparators that never answer 0.

Termination of the cascade over the child map needs that map to be acyclic.
A ghost rank map witnesses this:

- `DirRanked`: a directory child ranks below its parent;
- `Ranked`: every child ranks below its parent.

The methods that run the cascade are proved equal to specification functions
that follow the source's recursion. Those functions are tied, by lemmas, to a
set-valued reference: `Descendants`, the ids reachable below a folder.

## Model

| member | source | states |
|---|---|---|
| Resources.StateName | app/types/resourcesTypes.ts:3-11 | every state's string value is non-empty, so a present overlay entry is truthy |
| Resources.ParseState | app/types/resourcesTypes.ts:3-11 | a parsed name is the string value of the state it yields |
| Resources.ParseStateName | app/types/resourcesTypes.ts:3-11 | parsing a state's string value gives back that state |
| Resources.StateNameInjective | app/types/resourcesTypes.ts:3-11 | distinct states have distinct string values |
| Text.Lower | app/components/file-picker/resourceTable.tsx:65-68 | lowercasing keeps the length and maps every character on its own |
| Text.LowerIdempotent | app/components/file-picker/resourceTable.tsx:65-68 | lowercasing twice is lowercasing once |
| Text.IncludesEmpty | app/components/file-picker/resourceTable.tsx:65-68 | every path includes the empty search term |
| Text.Split | app/components/file-picker/resourceItem.tsx:55 | `split` always yields at least one piece, and no piece contains the separator |
| Text.SplitJoin | app/components/file-picker/resourceItem.tsx:55 | joining the pieces of a split with the separator gives back the string |
| Text.JoinSplit | app/components/file-picker/resourceItem.tsx:55 | splitting a join of separator-free pieces gives back the pieces |
| Text.SplitExtend | app/components/file-picker/resourceItem.tsx:55 | appending separator-free text to a string only extends the last piece of its split |
| Text.TailRun | app/components/FilePicker.tsx:306 | the last piece of a split contains no separator |
| Text.SplitLast | app/components/FilePicker.tsx:306 | `split(sep).pop()` is the run of characters after the last separator |
| Text.TailRunWhole | app/components/FilePicker.tsx:306 | a string without the separator is its own last piece |
| Text.TailRunLower | app/components/FilePicker.tsx:306 | for a separator that is no letter, lowercasing commutes with taking the last piece |
| Text.LastSegment | app/components/file-picker/resourceItem.tsx:55 | the independent definition of the display name (trailing slashes skipped, then the run after the last slash) contains no slash |
| Text.SegmentsSlash | app/components/file-picker/resourceItem.tsx:55 | a trailing slash adds only an empty piece, which the filter drops |
| Text.SegmentsChar | app/components/file-picker/resourceItem.tsx:55 | after a trailing non-slash character the last segment is the run after the last slash |
| Text.FileNameIsLastSegment | app/components/file-picker/resourceItem.tsx:55 | `split("/").filter(Boolean).pop() \|\| ""` equals the last non-empty segment of the path |
| Text.FileNameHasNoSlash | app/components/file-picker/resourceItem.tsx:55 | a display name never contains `/` |
| Text.LexLessIrreflexive | app/components/file-picker/resourceTable.tsx:93 | no string is `>` itself |
| Text.LexLessAsymmetric | app/components/file-picker/resourceTable.tsx:93 | `a < b` excludes `b < a` |
| Text.LexLessTotal | app/components/file-picker/resourceTable.tsx:93 | two distinct strings are ordered one way or the other |
| Selection.WithChildrenSpec | app/hooks/useResourceSelection.ts:48-69 | `addChildren` only appends fresh ids without repeats, and the result holds exactly the old selection plus every id reachable below the folder |
| Selection.WithChildrenListSpec | app/hooks/useResourceSelection.ts:52-65 | the same for the loop over one list of children |
| Selection.WithoutChildrenSpec | app/hooks/useResourceSelection.ts:74-93 | `removeChildren` filters every id reachable below the folder out of the selection, keeping the order of the rest |
| Selection.WithoutChildrenListSpec | app/hooks/useResourceSelection.ts:78-89 | the same for the loop over one list of children |
| Selection.ToggleSelection | app/hooks/useResourceSelection.ts:16-43 | after a toggle the id is selected exactly when it was not before |
| Selection.ToggleFile | app/hooks/useResourceSelection.ts:16-43 | toggling a file appends it when absent, filters out all its occurrences when present, and keeps every other id |
| Selection.SelectFolder | app/hooks/useResourceSelection.ts:16-43 | selecting a folder appends it and then its fresh descendants, adds nothing else, and keeps a duplicate-free selection duplicate-free |
| Selection.DeselectFolder | app/hooks/useResourceSelection.ts:16-43 | deselecting a folder filters out it and all its descendants, in order |
| Selection.ToggleKeepsNoDups | app/hooks/useResourceSelection.ts:16-43 | a toggle keeps a duplicate-free selection duplicate-free |
| Selection.SelectAllChildren | app/hooks/useResourceSelection.ts:48-69 | the loop that pushes children computes the specification, so it appends fresh ids and adds exactly the folder's descendants |
| Selection.AddChildren | app/hooks/useResourceSelection.ts:52-65 | the recursive loop computes the specification for one parent |
| Selection.DeselectAllChildren | app/hooks/useResourceSelection.ts:74-93 | the loop that filters children computes the specification: the selection without the folder's descendants |
| Selection.RemoveChildren | app/hooks/useResourceSelection.ts:78-89 | the recursive loop computes the specification for one parent |
| Selection.UpdateChildResourcesMap | app/hooks/useResourceSelection.ts:98-103 | the entry for the id becomes the children and every other entry is kept |
| Selection.ChildrenOfUpdated | app/hooks/useResourceSelection.ts:53 | after an update, `childResourcesMap[id] \|\| []` reads the children written for the id, as before for every other id, and `[]` for a folder never loaded |
| Selection.Leaves | app/hooks/useResourceSelection.ts:108-133 | an id is a leaf exactly when it is selected and none of its known children is selected; ids without a child entry are always leaves |
| Selection.GetLeafNodeResourceIds | app/hooks/useResourceSelection.ts:108-133 | the two loops (collect parents, then keep non-parents) compute the leaves |
| Selection.CollectParents | app/hooks/useResourceSelection.ts:115-123 | the first pass collects exactly the selected ids with a selected known child |
| Selection.AddIfParent | app/hooks/useResourceSelection.ts:116-122 | the loop over one id's children adds the id exactly when one of them is selected |
| Selection.KeepOutside | app/hooks/useResourceSelection.ts:126-130 | the second pass keeps, in order, the selected ids outside the parent set |
| Selection.LeavesWhenFlat | app/hooks/useResourceSelection.ts:108-133 | when no selected id has a selected known child, the leaf list is the selection itself |
| Selection.LeafBelow | app/hooks/useResourceSelection.ts:108-133 | on an acyclic map, a selection holding any id holds an id with no selected known child |
| Selection.LeavesNonEmpty | app/hooks/useResourceSelection.ts:108-133 | on an acyclic map a non-empty selection has a non-empty leaf list |
| Expansion.ToggleExpand | app/hooks/useResourceExpansion.ts:12-21 | the id's expanded state flips and every other id keeps its own; an absent id is appended, and a present one is collapsed, so the rest keep their order |
| Expansion.ExpandFolder | app/hooks/useResourceExpansion.ts:34-38 | the old list is a prefix of the new one, which holds exactly the old ids and the id, and grows by one exactly when the id was not expanded |
| Expansion.CollapseFolder | app/hooks/useResourceExpansion.ts:43-45 | exactly the id leaves the list |
| Expansion.CollapsePreservesOrder | app/hooks/useResourceExpansion.ts:43-45 | collapsing keeps the order of the others (it distributes over concatenation) |
| Expansion.ToggleTwiceRestores | app/hooks/useResourceExpansion.ts:12-21 | toggling a collapsed folder twice restores the list |
| Expansion.ExpandIdempotent | app/hooks/useResourceExpansion.ts:34-38 | expanding twice is expanding once |
| Expansion.CollapseIdempotent | app/hooks/useResourceExpansion.ts:43-45 | collapsing twice is collapsing once |
| Expansion.ExpandedAfter | app/hooks/useResourceExpansion.ts:27-45 | after expanding, the folder is expanded; after collapsing, it is not; other folders are unaffected |
| Expansion.ExpansionKeepsNoDups | app/hooks/useResourceExpansion.ts:12-45 | all three operations keep the list duplicate-free |
| KnowledgeBaseStore.Store.constructor | app/store/knowledgeBaseStore.ts:18-23 | no knowledge base, not syncing, empty history |
| KnowledgeBaseStore.Store.SetKnowledgeBase | app/store/knowledgeBaseStore.ts:25-38 | the id becomes current and existing; a different truthy current id not yet in the history is appended to it |
| KnowledgeBaseStore.Store.ClearKnowledgeBase | app/store/knowledgeBaseStore.ts:40-50 | nothing is current; a truthy current id not yet in the history is appended to it |
| KnowledgeBaseStore.Store.SwitchToKnowledgeBase | app/store/knowledgeBaseStore.ts:52-54 | the id becomes current and existing; the history is untouched |
| KnowledgeBaseStore.Store.RemoveFromHistory | app/store/knowledgeBaseStore.ts:56-60 | every occurrence of the id leaves the history, the rest keep their order |
| KnowledgeBaseStore.Store.SetSyncing | app/store/knowledgeBaseStore.ts:62 | only the syncing flag changes |
| Overlay.Merge | app/components/file-picker/filePickerKnowledge.tsx:138-141 | `{...prev, ...rec}`: the keys of both, the record's value winning |
| Overlay.Marked | app/components/file-picker/filePickerKnowledge.tsx:187-190 | the record built by `forEach` holds exactly the given ids, all with one state |
| Overlay.SyncCandidates | app/components/file-picker/filePickerKnowledge.tsx:248-252 | exactly the selected ids whose overlay is INDEXED, each with SYNCRONIZING |
| Overlay.FoundIn | app/components/file-picker/filePickerKnowledge.tsx:128-136 | exactly the selected ids present in the listing, each with SYNCHRONIZED |
| Overlay.StateRecord | app/components/file-picker/filePickerKnowledge.tsx:187-190 | the `forEach` loop builds that record |
| Overlay.SyncingRecord | app/components/file-picker/filePickerKnowledge.tsx:248-252 | the `forEach` loop builds the sync record |
| Overlay.SynchronizedRecord | app/components/file-picker/filePickerKnowledge.tsx:128-136 | the `forEach` loop builds the listing record |
| Overlay.Reconcile | app/components/file-picker/filePickerKnowledge.tsx:125-143 | without data nothing changes; with data every selected listed id becomes SYNCHRONIZED, every other entry is kept, and no other key appears |
| Overlay.IndexStart | app/components/file-picker/filePickerKnowledge.tsx:174-195 | nothing changes for an empty selection or an empty leaf list; otherwise every selected id becomes INDEXING and the rest is kept |
| Overlay.IndexFinish | app/components/file-picker/filePickerKnowledge.tsx:199-238 | every id the handler started with becomes INDEXED on success and FAILED on failure; the rest is kept |
| Overlay.SyncStart | app/components/file-picker/filePickerKnowledge.tsx:242-257 | the keys are unchanged, and exactly the selected INDEXED entries become SYNCRONIZING |
| Overlay.SyncFinish | app/components/file-picker/filePickerKnowledge.tsx:259-290 | success changes nothing; failure marks every id the handler started with FAILED |
| Overlay.RemoveStart | app/components/file-picker/filePickerKnowledge.tsx:297-301 | the id becomes REMOVING and nothing else changes |
| Overlay.RemoveFinish | app/components/file-picker/filePickerKnowledge.tsx:313-328 | the id becomes RESOURCE on success and FAILED on failure; nothing else changes |
| Overlay.IndexRun | app/components/file-picker/filePickerKnowledge.tsx:174-239 | a whole index run leaves each selected id INDEXED or FAILED and every other entry as it was |
| Overlay.FailedSyncRun | app/components/file-picker/filePickerKnowledge.tsx:242-291 | a failed sync marks each selected id FAILED, whatever it showed before |
| Overlay.RemoveRun | app/components/file-picker/filePickerKnowledge.tsx:294-330 | a whole remove run sets only the id's entry, to RESOURCE or FAILED |
| Overlay.ReconcileIdempotent | app/components/file-picker/filePickerKnowledge.tsx:125-143 | reconciling twice with the same listing is reconciling once |
| StatusBadge.OverlayClass | app/components/file-picker/statusBadge.tsx:19-27 | no overlay state looks like a server status |
| StatusBadge.OverlayLabel | app/components/file-picker/statusBadge.tsx:31-35 | every label is non-empty and is the state's string value, followed by "..." exactly for the two running states |
| StatusBadge.OverlayLabelDistinct | app/components/file-picker/statusBadge.tsx:31-35 | distinct overlay states get distinct labels |
| StatusBadge.StatusBadge | app/components/file-picker/statusBadge.tsx:14-47 | an overlay entry decides the badge; otherwise a truthy server status shows in gray; otherwise no badge |
| StatusBadge.OverlayWins | app/components/filePickerKnowledge.tsx:237-270 | with an overlay entry the server status is irrelevant |
| ResourceRow.IsIndeterminate | app/components/file-picker/resourceItem.tsx:103-110 | indeterminate exactly when some known child is selected and some is not; never without known children |
| ResourceRow.ProcessingAgrees | app/components/filePickerKnowledge.tsx:94 | comparing with "indexing"/"removing" disables the same checkboxes as comparing with the enum members |
| ResourceRow.NeedsChildren | app/components/file-picker/resourceItem.tsx:68-72 | a fetch is requested exactly for an expanded folder whose entry is missing or empty |
| ResourceTable.HandleSort | app/components/file-picker/resourceTable.tsx:54-62 | the clicked field becomes current; the same field flips the direction, a new one starts ascending |
| ResourceTable.HandleSortTwice | app/components/file-picker/resourceTable.tsx:54-62 | two clicks on the current header restore the sort |
| ResourceTable.FilterBySearch | app/components/file-picker/resourceTable.tsx:65-68 | exactly the resources whose lowercased path includes the lowercased term |
| ResourceTable.FilterBySearchAppend | app/components/file-picker/resourceTable.tsx:65-68 | the filter keeps the order of what it keeps |
| ResourceTable.FilterEmptyTerm | app/components/file-picker/resourceTable.tsx:65-68 | an empty term keeps every resource |
| ResourceTable.Compare | app/components/file-picker/resourceTable.tsx:71-95 | the comparator answers 1 or -1, and a directory sorts before a file |
| ResourceTable.CompareSameType | app/components/file-picker/resourceTable.tsx:79-94 | ascending follows the key order; descending negates it |
| ResourceTable.EqualKeysBothBelow | app/components/file-picker/resourceTable.tsx:93-94 | equal keys give the same answer both ways round, so the comparator is not consistent |
| ResourceTable.DistinctKeysAntisymmetric | app/components/file-picker/resourceTable.tsx:79-94 | on distinct keys swapping the arguments negates the answer |
| ResourceTable.CompareTypeOrdered | app/components/file-picker/resourceTable.tsx:72-75 | the comparator ranks every directory before every file |
| ResourceTable.TableRowsSpec | app/components/file-picker/resourceTable.tsx:65-95 | the table shows exactly the matching resources, each as often as given, directories before files |
| Sorting.Insert | app/components/file-picker/resourceTable.tsx:71 | inserting adds exactly one element |
| Sorting.SortBy | app/components/file-picker/resourceTable.tsx:71 | sorting is a permutation |
| Sorting.DirsFirstCons | app/components/file-picker/resourceTable.tsx:72-75 | directories-first holds for a sequence exactly when it holds for its tail and a leading file is followed only by files |
| Sorting.InsertKeepsOrder | app/components/file-picker/resourceTable.tsx:72-75 | insertion with a directories-first comparator keeps a directories-first sequence so |
| Sorting.SortDirsFirst | app/components/file-picker/resourceTable.tsx:71-75 | sorting with such a comparator puts every directory before every file |
| MountedPicker.MergeChildren | app/components/filePickerKnowledge.tsx:106-114 | an absent or empty entry becomes the fetched list, or `[]` without data; a loaded entry and every other key are kept |
| MountedPicker.LoadedChildrenStay | app/components/filePickerKnowledge.tsx:106-114 | once a non-empty list is loaded, no later load replaces it |
| MountedPicker.CompareInts | app/components/filePickerKnowledge.tsx:814 | 0 on equal values, 1 exactly when the first is greater |
| MountedPicker.CompareStrings | app/components/filePickerKnowledge.tsx:814 | 0 on equal strings, 1 exactly when the first is greater |
| MountedPicker.MountedCompare | app/components/filePickerKnowledge.tsx:792-817 | the answer is in -1..1, a directory sorts before a file, and any field but "name" and "created_at" answers 1 |
| MountedPicker.MountedCompareByName | app/components/filePickerKnowledge.tsx:800-816 | by name, equal display names compare as 0 and swapping the arguments negates the answer |
| MountedPicker.RootRowsSpec | app/components/filePickerKnowledge.tsx:580-817 | the root rows are a permutation of the matching resources, directories first |
| MountedPicker.IndexAlwaysStarts | app/components/filePickerKnowledge.tsx:597-618 | on an acyclic map a non-empty selection always passes the leaf check, and every selected id becomes INDEXING |
| MountedPicker.Picker.constructor | app/components/filePickerKnowledge.tsx:452-461 | nothing expanded, selected, loaded or marked; sorted by name ascending |
| MountedPicker.Picker.ToggleExpand | app/components/filePickerKnowledge.tsx:145-156 | a folder's id flips in the expanded list, a file changes nothing, nothing else changes |
| MountedPicker.Picker.RequestFetchIfNeeded | app/components/filePickerKnowledge.tsx:100-104 | the fetch flag is set exactly when the row needs its children |
| MountedPicker.Picker.OnChildrenLoaded | app/components/filePickerKnowledge.tsx:106-132 | the map is merged; if the row's count changed and it is a selected folder with children, exactly its descendants are appended, otherwise the selection is kept |
| MountedPicker.Picker.OnBecameUnselected | app/components/filePickerKnowledge.tsx:116-121 | an unselected folder has its descendants filtered out; otherwise nothing changes |
| MountedPicker.Picker.ToggleSelection | app/components/filePickerKnowledge.tsx:159-234 | the hook's toggle; an unloaded folder is only appended |
| MountedPicker.Picker.GetLeafNodeResourceIds | app/components/filePickerKnowledge.tsx:758-783 | the leaves of the current selection |
| MountedPicker.Picker.ClearSelection | app/components/filePickerKnowledge.tsx:1037 | the selection becomes empty and stays duplicate-free, and every other field is kept |
| MountedPicker.Picker.Reconcile | app/components/filePickerKnowledge.tsx:536-554 | the overlay is reconciled with the listing |
| MountedPicker.Picker.IndexStart | app/components/filePickerKnowledge.tsx:597-618 | it starts exactly with a non-empty selection and leaf list, marks the selection INDEXING and sends the leaves |
| MountedPicker.Picker.IndexFinish | app/components/filePickerKnowledge.tsx:632-662 | the captured selection becomes INDEXED or FAILED |
| MountedPicker.Picker.HandleSort | app/components/filePickerKnowledge.tsx:586-594 | the header click, as in the table |
| RefactoredPicker.Picker.constructor | app/components/file-picker/filePickerKnowledge.tsx:46-65 | nothing expanded, selected, loaded or marked; not synced |
| RefactoredPicker.Picker.HandleRowClick | app/components/file-picker/resourceItem.tsx:116-125 | a folder's id flips in the expanded list, a file changes nothing |
| RefactoredPicker.Picker.HandleCheckboxChange | app/components/file-picker/resourceItem.tsx:112-114 | the hook's toggle on the row's id and type |
| RefactoredPicker.Picker.RequestFetchIfNeeded | app/components/file-picker/resourceItem.tsx:68-72 | the fetch flag is set exactly when the row needs its children |
| RefactoredPicker.Picker.OnChildrenFetched | app/components/file-picker/resourceItem.tsx:75-83 | fetched data overwrites the row's entry; the selection is not touched |
| RefactoredPicker.Picker.ClearSelection | app/components/file-picker/filePickerKnowledge.tsx:479 | the selection becomes empty and stays duplicate-free, and every other field is kept |
| RefactoredPicker.Picker.Reconcile | app/components/file-picker/filePickerKnowledge.tsx:125-143 | the overlay is reconciled with the listing |
| RefactoredPicker.Picker.OnKnowledgeBaseCreated | app/components/file-picker/filePickerKnowledge.tsx:146-151 | a truthy new id becomes the store's current knowledge base; otherwise the store is untouched |
| RefactoredPicker.Picker.IndexStart | app/components/file-picker/filePickerKnowledge.tsx:174-195 | it starts exactly with a non-empty selection and leaf list, marks the selection INDEXING and sends the leaves |
| RefactoredPicker.Picker.IndexFinish | app/components/file-picker/filePickerKnowledge.tsx:199-238 | the captured selection becomes INDEXED or FAILED |
| RefactoredPicker.Picker.SyncStart | app/components/file-picker/filePickerKnowledge.tsx:242-257 | an empty selection does nothing; otherwise the selected INDEXED ids become SYNCRONIZING and the store syncs |
| RefactoredPicker.Picker.SyncFinish | app/components/file-picker/filePickerKnowledge.tsx:259-290 | the store stops syncing; success sets `hasSynced`, failure marks the captured selection FAILED |
| RefactoredPicker.Picker.RemoveStart | app/components/file-picker/filePickerKnowledge.tsx:294-306 | the id becomes REMOVING and only it leaves the selection |
| RefactoredPicker.Picker.RemoveFinish | app/components/file-picker/filePickerKnowledge.tsx:308-329 | the id becomes RESOURCE or FAILED |
| LegacyPicker.GetFileType | app/components/FilePicker.tsx:305-313 | "document", "image" or "other" exactly by the lowercased text after the last dot |
| LegacyPicker.ExtensionWithoutDot | app/components/FilePicker.tsx:306 | a path without a dot is its own extension |
| LegacyPicker.FileTypeOfLowered | app/components/FilePicker.tsx:306-326 | classifying the lowercased path equals classifying the path |
| LegacyPicker.FilterList | app/components/FilePicker.tsx:316-328 | keeps exactly the matching resources |
| LegacyPicker.LegacyFilter | app/components/FilePicker.tsx:316-328 | no data gives no rows; otherwise exactly the matching resources |
| LegacyPicker.LegacyMatchesSpec | app/components/FilePicker.tsx:320-327 | a directory matches by search alone; a file also needs the "all" filter or its own type |
| LegacyPicker.DropdownFilters | app/components/FilePicker.tsx:320-327 | under the "document" and "image" filters a file is kept exactly when it matches the search and has that type |
| LegacyPicker.LegacyCompare | app/components/FilePicker.tsx:331-358 | 1 or -1, directories first, and an absent key compares below in ascending order |
| LegacyPicker.LegacyRowsSpec | app/components/FilePicker.tsx:316-358 | the rows are a permutation of the filtered resources, directories first |
| LegacyPicker.ToggleFile | app/components/FilePicker.tsx:202-222 | with a selected parent, the parent is swapped for the id; otherwise the id flips; other ids are kept |
| LegacyPicker.ParentSwapRepeats | app/components/FilePicker.tsx:208-211 | swapping a selected parent for an already selected id produces a duplicate |
| LegacyPicker.CrumbIds | app/components/FilePicker.tsx:173 | the ids of the breadcrumb, in order |
| LegacyPicker.FindCrumb | app/components/FilePicker.tsx:173 | `findIndex`: -1 exactly when no crumb has the id; otherwise the first crumb with it |
| LegacyPicker.CrumbName | app/components/FilePicker.tsx:169-177 | the crumb's name is the display name, undefined when the path has no segment |
| LegacyPicker.Picker.constructor | app/components/FilePicker.tsx:134-143 | at the root, with the root crumb only, nothing selected, sorted by name, filter "all" |
| LegacyPicker.Picker.HandleFolderClick | app/components/FilePicker.tsx:165-181 | the folder becomes current and is appended to the breadcrumb unless already in it |
| LegacyPicker.Picker.HandleBreadcrumbClick | app/components/FilePicker.tsx:183-186 | the item becomes current and the breadcrumb is cut after the index |
| LegacyPicker.Picker.HandleSort | app/components/FilePicker.tsx:188-196 | the header click, as in the table |
| LegacyPicker.Picker.ToggleFileSelection | app/components/FilePicker.tsx:202-222 | the selection becomes the legacy toggle |
| LegacyPicker.Picker.ClearSelection | app/components/FilePicker.tsx:743-750 | the selection becomes empty, the trail keeps its invariant, and every other field is kept |
| LegacyPicker.Picker.SetFileTypeFilter | app/components/FilePicker.tsx:449-465 | a dropdown entry sets the type filter and changes nothing else |
| KnowledgeBaseRoute.BuildIndexingParams | app/api/knowledge-bases/route.ts:34-66 | without parameters, the defaults; with them, every given field is kept, even `false` or `0`, and each one left out takes its default |
| KnowledgeBaseRoute.BuildPayload | app/api/knowledge-bases/route.ts:49-69 | the required fields go out as given and truthy; the description is always truthy, the caller's when truthy and otherwise the default; role and cron job are null |
| KnowledgeBaseRoute.PayloadResent | app/api/knowledge-bases/route.ts:34-69 | filling in defaults is idempotent: a built payload sent back as a body builds the same payload |
| KnowledgeBaseRoute.Post | app/api/knowledge-bases/route.ts:6-86 | 401 without a truthy token, 500 for an unreadable body, 400 for a falsy required field, else the payload goes upstream; 500 exactly when that fails, and the payload is created exactly when it succeeds |
| KnowledgeBaseRoute.AuthBeforeBody | app/api/knowledge-bases/route.ts:8-17 | without a token the answer does not depend on the body |
| KnowledgeBaseRoute.EmptySourceIdsPass | app/api/knowledge-bases/route.ts:21 | an empty list of source ids passes validation and is sent as it is |
| KnowledgeBaseRoute.EmptyStringsDiffer | app/api/knowledge-bases/route.ts:53-64 | an empty description becomes the default; an empty chunker name is kept |
| KnowledgeBaseRoute.FalsyValuesKept | app/api/knowledge-bases/route.ts:55-63 | a given `false` or `0` is not replaced by its default |
| KnowledgeBaseRoute.EmptyParamsAreDefaults | app/api/knowledge-bases/route.ts:54-66 | parameters with every field left out give exactly the defaults |

## Left out

- Network, SWR and authentication are left out. The fetches, the knowledge-base
  listing, the create, sync and delete calls, and the upstream POST become
  parameters: the data that arrived, or whether the call succeeded.
- Toasts, console output and JSX rendering are left out. The "Clear selection"
  buttons of the three pickers are the `ClearSelection` methods. These JSX
  handlers change state but are not modelled:
  - the date-column, view-mode and sidebar toggles, which change only what is shown;
  - the search input, because the search term is a parameter of the filters rather
    than a field;
  - logout and the refresh button, which belong to authentication and the network.
- React scheduling is left out. Effects and state updaters are sequential
  method calls, and an effect is a method called when its dependencies change.
  That effects fire once at mount is not modelled. The stale closures of the
  asynchronous handlers appear only as the selection passed to the finish step.
- Timestamps are abstract. `new Date(created_at).getTime()` is a function
  parameter of the mounted comparator, and NaN is not modelled. The
  `toLocaleString` knowledge-base name is not built.
- Sorting.SortBy: `Array.prototype.sort` is replaced by an insertion sort with
  the same comparator. Only the permutation and directories-first are claimed,
  not the engine's order among equal keys.
- Text.LexLess: strings compare by code point, not by UTF-16 code unit.
  Text.Lower lowercases ASCII letters only.
- LegacyPicker.LegacyKey: an unknown sort field is treated as an absent
  property (`undefined`). Reading a real property by its name is not modelled.
- `updated_at` and `last_modified` are carried in the data but never compared
  on, except the legacy "date" field.
- The mounted picker's sync and remove handlers
  (app/components/filePickerKnowledge.tsx:666-756) are the same code as the
  refactored ones. They are modelled once, in RefactoredPicker. The mounted
  picker's knowledge-base effect (556-561) is RefactoredPicker.Picker.OnKnowledgeBaseCreated.
- The store is a module singleton in the source. Here it is passed
  explicitly, and the picker holds no reference to it.
- Code in app/components/FilePicker.tsx that does not type-check or is never
  reached (224-262, 272-279, 413-425) is not modelled. Line 691 passes a string
  where `toggleFileSelection` reads `resource_id`; only the call with a
  resource is modelled.
- Expansion.IsExpanded has no contract of its own; ExpandedAfter states what it answers.
- Resources.ChildrenOf has no contract of its own; Selection.ChildrenOfUpdated states
  what it reads after the map is updated.
- ResourceTable.Greater has no contract of its own; CompareSameType, EqualKeysBothBelow
  and DistinctKeysAntisymmetric state what the comparator built on it answers.
- ResourceRow.IsProcessing and ResourceRow.IsProcessingByName have no contract of
  their own; ProcessingAgrees relates them.
