# Codevis: a verified model of the analysis core

The C++ analysis tool of Codevis scans a code base, keeps what it finds in an
in-memory store, re-parses only what changed, and derives dependencies between
files, components, packages and types. This project models the parts of it that hold
algorithms over state, in Dafny, and proves what they keep and what they compute.
`dafny verify dfyconfig.toml` checks all of it.

Where the original changes fields, the model is a class with those fields, and its
methods are proved against functions; the theorems are about the functions.

| file | what it holds |
|---|---|
| `Options.dfy`, `Enumeration.dfy`, `Digraph.dfy` | optional values; the members of a set in a row; reachability in finite graphs |
| `PathAlgebra.dfy` | canonical paths, the textual prefix test, common parents |
| `CompilationDatabase.dfy` | the list of units with its hashed look-ups, and its subsets |
| `IncrementalUpdate.dfy` | what a scan, a deletion and the passes do to the store, and when that equals a parse from scratch |
| `UpdateHistory.dfy` | any number of edits and runs, and the pointers to erased file objects they leave |
| `MissedChange.dfy` | what is lost by a cancel, or because the scan does not look |
| `TypeRemoval.dfy` | type objects and nested types, over all histories |
| `TypeDeletion.dfy` | type objects and namespaces in the deletion of one update |
| `ObjectStore.dfy` | recursive removal of files with their includers; parsing a unit |
| `Tool.dfy` | the scanner and the control flow of an uncancelled run |
| `RunProtocol.dfy` | runner, workers, cancelling threads and the mutex as a state machine |
| `RunContents.dfy` | what an interleaving leaves in the store |
| `StaticFnHandler.dfy` | flattening a call graph into type-to-type dependencies |
| `HeaderCallbacks.dfy` | component and package graphs as projections of the include graph |
| `PackageScan.dfy` | how the scanner sorts directories into packages and groups |
| `CodegenTree.dfy` | the check-box tree and the code generation that obeys it |

## Results in short

* **An incremental run equals a parse from scratch** on everything reachable from a
  unit, exactly when no reachable file that is kept changed without the scan telling and
  no deleted file has a reverse include to an erased file (`IncrementalExactlyWhen`).
* **Over any history of edits** that the scans detect, the store stays in line with the
  files, unless a run erases a file whose includer an earlier run erased without it
  (`RunsStayFresh`): removal never takes a file out of the reverse includes of those it
  includes, and so the original follows a pointer to a destroyed file object. Editing a
  unit and then a header it includes is enough (`UnitThenHeader`).
* **Type objects** are another way for an update to fail. When a type loses its last
  file its nested types are erased with it, while files and outer types go on pointing
  to them; and post-processing leaves a type fewer files than list it. When an erased
  type object is touched is settled for all histories (`TouchesErasedExactlyWhen`), for
  one update in a given order (`UpdateTouchesErasedExactlyWhen`), and for all orders
  (`EveryOrderSafeExactlyWhen`). Nested classes, or a class declared again in the unit
  that includes its header, are enough (`EditingNestedTypes`, `EditingSharedType`). A
  namespace that still has a type when it loses its last file blocks its removal
  (`NamespaceStuckExactlyWhen`).
* **A cancel can hide changes.** After one between scan and set-up the next run sees
  deletions only; after one behind the set-up it misses what was new. When that does no
  harm, with or without further edits, is given exactly (`CutScanExactlyWhen`,
  `CutSetupExactlyWhen`), and so is the state such runs end in
  (`CancelAfterScanStaysReady`). An edit of a header that the database does not list can
  always be missed (`UnlistedHeaderGoesStale`).
* **In every interleaving**, a run that ends in AllReady after a logical pass has
  parsed every unit of that pass without error (`ReadyMeansParsed`), no thread uses a
  deleted executor, every file of a pass is accounted for, and a run ends if finitely
  many cancels come (`RunsAreBounded`, `NeverStuck`). The physical pass of such a run may
  have been cut all the same (`CutPassEndsReady`); which steps of which threads do that,
  and what it leaves in the store, is given exactly (`PhysicalCompleteExactlyWhen`,
  `ReadyIsFreshExactlyWhen`). How any run ends is given as well: a full run goes on to its
  logical pass even after a physical pass that failed (`LogicalPassFollows`,
  `RunsEndRight`).
* **Flattening a call graph** writes only implied dependencies, in any graph and any
  iteration order, and all those implied by a function with no cycle in its reach. The
  graphs that lose no edge in any order are characterised (`AlwaysCompleteExactlyWhen`),
  and so is what a single call yields (`FirstCallHolds`, `FirstCallExactlyWhen`).
* **Component and package graphs** are exact projections of the include relation.
  Dependencies and cycles of components carry over to packages, whatever is included,
  exactly when no component is split between packages
  (`DependenciesCarryOverExactlyWhen`, `CyclesCarryOverExactlyWhen`), and the naming
  rules do split some (`NamingSplits`).
* **Clicks** on the check-box tree keep it consistent, and code is generated for
  exactly the entities with a checked leaf at or below them.

Where the code and its comments differ, the model follows the code: `runPhysical`
reports success after a failed or a cut pass, the test at
lvtclp/ct_lvtclp_tool.cpp:838-839 is true in every state, and a directory that is first a
group and then a package can be stored without a parent, against the comment at
lvtclp/ct_lvtclp_filesystemscanner.cpp:340-341.

## Model

| member | source | states |
|---|---|---|
| IncrementalUpdates.IncrementalExactlyWhen | lvtclp/ct_lvtclp_tool.cpp:601-684 | an update that started from a store in order follows no reverse include to an erased file object and leaves everything reachable from a unit on disk as a parse from scratch would, if and only if no deleted file has such a reverse include, and each reachable file that was kept still has its content and its includes, or is entered again |
| IncrementalUpdates.HarmlessIsFresh | lvtclp/ct_lvtclp_tool.cpp:847-953 | file by file: under that condition the file is in the store with its current hash, includes and entities |
| IncrementalUpdates.UnenteredIsKept | lvtclp/ct_lvtclp_tool.cpp:646-683 | a reachable file that is not parsed again was not deleted either, and is stored as a parse of the old files would |
| IncrementalUpdates.RunKeepsGood | lvtclp/ct_lvtclp_tool.cpp:847-953 | a run whose scan detects all changes meets an erased file object exactly if a deleted file has a reverse include to one, and otherwise leaves the store in order for the next one |
| IncrementalUpdates.FullRunIsGood | lvtclp/ct_lvtclp_tool.cpp:847-953 | a run over all units repairs every store that holds nothing but what the old files had |
| UpdateHistories.RunsStayFresh | lvtclp/ct_lvtclp_tool.cpp:601-684 | for every history of edits that the scans detect: an erased file object is met exactly if some run erases a file whose includer an earlier run erased without it; otherwise the store agrees with a parse of the latest files |
| UpdateHistories.StaleExactlyWhen | lvtmdb/ct_lvtmdb_objectstore.cpp:664-719 | a stored file has a reverse include to an erased file object exactly if some run erased an includer of it and no run since erased the file itself |
| UpdateHistories.UnitThenHeader | lvtmdb/ct_lvtmdb_objectstore.cpp:700-703 | in every project: parse a unit and its header, edit the unit, then the header; all edits are detected, and the last deletion follows a pointer to an erased file object |
| UpdateHistories.IncluderThenIncluded | lvtmdb/ct_lvtmdb_objectstore.cpp:700-703 | over any files: so does every update of a file right after an update that erased an includer of it and kept the file |
| UpdateHistories.FirstRunIsGood | lvtclp/ct_lvtclp_tool.cpp:847-953 | the first run on an empty store puts it in order and leaves no pointer to an erased file object |
| TypeRemovals.TouchesErasedExactlyWhen | lvtmdb/ct_lvtmdb_objectstore.cpp:457-496 | over any history of type objects made, mentioned and dropped, in any order: an erased one is touched if and only if some operation is about a type, or takes the last file from a type around it, after the type or one around it had lost its last file |
| TypeRemovals.OuterAndNestedLost | lvtmdb/ct_lvtmdb_objectstore.cpp:477-479 | no history survives in which a type and one nested in it both lose their last file, whichever comes first |
| TypeDeletions.UpdateTouchesErasedExactlyWhen | lvtmdb/ct_lvtmdb_objectstore.cpp:664-703 | for a deletion in one given order, where nested types go with the outer ones: an erased type object is touched exactly if one that a deleted file lists or that goes with a deleted type was erased before, or a type that loses all its files has one nested in it that a deleted file lists, or a type is emptied before the last deleted file that lists it is dealt with |
| TypeDeletions.DeletionTouchesExactlyWhen | lvtmdb/ct_lvtmdb_objectstore.cpp:664-703 | the same for any types and files: besides what was erased before, exactly if a type is emptied and it or one nested in it is dropped from later or emptied too |
| TypeDeletions.EveryOrderSafeExactlyWhen | lvtmdb/ct_lvtmdb_objectstore.cpp:664-703 | a deletion touches no erased type object in any order exactly if none that matters was erased before, no type that loses all its files has one nested in it that a deleted file lists, and none is listed by a deleted file other than its own |
| TypeDeletions.HistoriesStayInStep | lvtclp/ct_lvtclp_logicalpostprocessutil.cpp:40-59 | whatever is made, mentioned, post-processed and dropped, a type's files list it and a listed type has a file, as the theorems on deletions ask |
| TypeDeletions.FileByFileDropsAll | lvtmdb/ct_lvtmdb_objectstore.cpp:685-703 | going through the deleted files one by one and through each one's list drops each file from each type it lists once |
| TypeDeletions.RunTouchesErasedExactlyWhen | lvtclp/ct_lvtclp_tool.cpp:620-637 | so it is for the deletion of an update, file by file in any order, if files of a nested type include one of the outer type |
| TypeDeletions.EditingNestedTypes | lvtmdb/ct_lvtmdb_objectstore.cpp:685-695 | editing a file that alone holds a class and one nested in it is enough, whichever it lists first |
| TypeDeletions.EditingSharedType | lvtmdb/ct_lvtmdb_objectstore.cpp:685-703 | so is editing a header whose class is declared again in the unit that includes it, after post-processing has left the class the header alone: the unit still lists it |
| TypeDeletions.NamespaceStuckExactlyWhen | lvtmdb/ct_lvtmdb_objectstore.cpp:540-571 | while no erased type is touched, a namespace blocks the removal exactly at the last deleted file that opens it, if it has a type that is left with a file, and so have those around it, by the files before |
| TypeRemovals.TypeStore.RemoveType | lvtmdb/ct_lvtmdb_objectstore.cpp:457-496 | the recursion over nested types erases exactly the type and all that is nested in it, and faults exactly if one of these was erased before |
| TypeRemovals.TypeStore.DropFile | lvtmdb/ct_lvtmdb_objectstore.cpp:685-695 | the loop over the types that a removed file lists, with all its effects and faults |
| TypeRemovals.TypeStore.MakeType | lvtclp/ct_lvtclp_logicaldepvisitor.cpp:1689-1708 | a new type is listed with the type it is nested in, and with no other |
| IncrementalUpdates.VisitedTwice | lvtclp/ct_lvtclp_toolexecutor.cpp:205-215 | parsing units in any grouping and order, even overlapping, leaves the same store |
| MissedChanges.RescanIsQuiet | lvtclp/ct_lvtclp_filesystemscanner.cpp:404-549 | a second scan of the same files reports nothing new or modified, and the same deletions |
| MissedChanges.AfterScanSees | lvtclp/ct_lvtclp_tool.cpp:736-743 | without further edits, the run after a cancel between scan and set-up knows of deleted files only |
| MissedChanges.CutScanExactlyWhen | lvtclp/ct_lvtclp_tool.cpp:736-743 | for any edits between the cancel and the next run: that run follows no pointer to an erased file object and leaves everything fresh if and only if each reachable file it does not parse has the includes and entities of the time before the cut run (or is new and blank), each that it parses has lost none, hashes are current, and no deleted file has such a pointer |
| MissedChanges.CutScanLosesEdits | lvtclp/ct_lvtclp_tool.cpp:736-743 | an edit that the cut scan saw is not reported again; unless the file is parsed for another reason, it is stale if its includes or entities changed |
| MissedChanges.AfterSetupSees | lvtclp/ct_lvtclp_tool.cpp:745-753 | after a cancel behind the set-up the next run sees what was erased as new, and nothing else |
| MissedChanges.CutSetupExactlyWhen | lvtclp/ct_lvtclp_tool.cpp:745-753 | without further edits that run is fresh if and only if each reachable file that the cut scan found new is blank or parsed with another, and each erased unit has the name of a source or header file or is parsed with another |
| MissedChanges.CutSetupThenEditsExactlyWhen | lvtclp/ct_lvtclp_tool.cpp:745-753 | with further edits the exact condition is that of a cut scan |
| MissedChanges.CutPassExactlyWhen | lvtclp/ct_lvtclp_tool.cpp:825-844 | after a run whose physical pass was cut and whose logical pass was not, the store is fresh if and only if each file that the cut pass did not get to includes nothing that was not recorded before |
| MissedChanges.CutPassStays | lvtclp/ct_lvtclp_tool.cpp:847-866 | and it stays as it is in a later run that finds no change |
| MissedChanges.UnreportedChangeIsStale | lvtclp/ct_lvtclp_tool.cpp:606-619 | a kept reachable file that changed without the scan telling is stale after the run, whatever else the scan tells |
| MissedChanges.UnlistedHeaderGoesStale | lvtclp/ct_lvtclp_filesystemscanner.cpp:152-221 | in every project and over any files: every edit of a header that a unit includes, if the header is neither a unit nor listed, is missed by a scan that finds all other files, and goes stale |
| ObjectStores.ObjectStore.RemoveFile | lvtmdb/ct_lvtmdb_objectstore.cpp:646-722 | following reverse includes from object to object, removal marks the object and all that includes it directly or not, erases just those, and lists each once, in any order; it ends in a fault only where a reverse include leads to a file object erased before |
| ObjectStores.EraseKeepsLinked | lvtmdb/ct_lvtmdb_objectstore.cpp:664-719 | erasing files with all their includers keeps includes and reverse includes converse among what stays, and leaves dangling exactly the pointers from kept files to erased includers |
| ObjectStores.LinkKeepsLinked | lvtmdb/ct_lvtmdb_databaseobject.h:70-101 | recording an include keeps both directions in step and dangles nothing |
| ObjectStores.ObjectStore.WriteSourceFile | lvtclp/ct_lvtclp_clputil.cpp:215-263 | a known file stays as it is, an unknown one is added with its hash and nothing else |
| ObjectStores.ObjectStore.RecordInclude | lvtclp/ct_lvtclp_headercallbacks.cpp:54-124 | one more include of one file; all other entries as they were |
| ObjectStores.ObjectStore.Enter | lvtclp/ct_lvtclp_headercallbacks.cpp:54-189 | recursive entering of included files contributes each file once, and to no other |
| ObjectStores.ObjectStore.ParseUnit | lvtclp/ct_lvtclp_toolexecutor.cpp:82-178 | each file that a path of include directives over files on disk leads to from the unit is entered, and only those; it then has as includes what it had and each other file on disk that its directives name, or in the logical pass its entities; nothing else changes |
| ObjectStores.ObjectStore.RunPass | lvtclp/ct_lvtclp_toolexecutor.cpp:181-221 | the same after a pass over units in any order; it failed if and only if some unit was missing |
| ObjectStores.EntersReachSet | lvtclp/ct_lvtclp_headercallbacks.cpp:54-189 | a parse enters exactly the files reachable by resolved includes |
| IncrementalUpdates.ReachSetIs | lvtclp/ct_lvtclp_headercallbacks.cpp:54-124 | the files entered are exactly those that paths of include directives over files on disk lead to from a unit on disk |
| IncrementalUpdates.DirectivesAreEntered | lvtclp/ct_lvtclp_headercallbacks.cpp:54-121 | every unit on disk, and whatever on disk an entered file names in an include directive, is entered |
| IncrementalUpdates.VisitedRecords | lvtclp/ct_lvtclp_headercallbacks.cpp:115-121 | the store that the theorems give for a pass records exactly the directives that resolve to another file, and entities, of each file entered |
| IncrementalUpdates.FromScratchIsParse | lvtclp/ct_lvtclp_tool.cpp:847-953 | what the theorems on updates compare with is what both passes record of the file in an empty store |
| Tools.FoundFacts | lvtclp/ct_lvtclp_filesystemscanner.cpp:141-227 | what the scan finds is on disk and named in normal form, and no unit that is on disk and not ignored is missed |
| Tools.FirstPresentListed | lvtclp/ct_lvtclp_filesystemscanner.cpp:210-220 | the header looked at is the first candidate that exists, and none is only if none exists |
| Tools.FoundExactly | lvtclp/ct_lvtclp_filesystemscanner.cpp:141-231 | a file is found if and only if it is an unignored unit on disk, or an unignored candidate of some unit that is on disk while none of the unit's candidates before it is |
| Tools.HeaderFoundIs | lvtclp/ct_lvtclp_filesystemscanner.cpp:210-220 | the same for the header of one unit |
| Tools.NormaliseIsWellNamed | lvtclp/ct_lvtclp_clputil.cpp:201-213 | normalising a joined normal name gives it back |
| Tools.FilesystemScanner.ScanCompilationDb | lvtclp/ct_lvtclp_filesystemscanner.cpp:141-150 | new are the found files with the name of a header or source that were not stored, modified those stored with another hash, deleted the stored ones that share directory and stem with a unit and were not found; found are just the unignored units on disk and the unignored first candidates on disk; so an edited header of that kind is reported as modified and never as deleted |
| Tools.ScanIsRight | lvtclp/ct_lvtclp_filesystemscanner.cpp:404-549 | every report that lists what differs between store and found files, each once, is right about units and candidates in that sense |
| Tools.FilesystemScanner.AddToDatabase | lvtclp/ct_lvtclp_filesystemscanner.cpp:404-549 | new, modified and deleted files are exactly those that differ from the store, each listed once; hashes are brought up to date |
| Tools.FilesystemScanner.AddFiles | lvtclp/ct_lvtclp_filesystemscanner.cpp:432-496 | the loop over found files: a file found twice is reported once |
| Tools.FilesystemScanner.AddFile | lvtclp/ct_lvtclp_filesystemscanner.cpp:445-495 | one found file is new, modified, unchanged, or not recognised |
| Tools.FilesystemScanner.ReportDeleted | lvtclp/ct_lvtclp_filesystemscanner.cpp:519-540 | exactly the stored files that the database lists and the scan did not find |
| Tools.RemovedIsGone | lvtclp/ct_lvtclp_tool.cpp:620-637 | the removed files are exactly those that reach a changed file along recorded includes |
| Tools.Tool.DeleteFile | lvtclp/ct_lvtclp_tool.cpp:623-634 | one more changed file with its includers is removed, unless it is gone already |
| Tools.Tool.DeleteFiles | lvtclp/ct_lvtclp_tool.cpp:636-637 | the files that reach a changed one are erased, whatever the order, and it is told which reverse includes dangle then; a fault arises if and only if one of them has a reverse include to a file object erased by an earlier update |
| Tools.Tool.PickUnits | lvtclp/ct_lvtclp_tool.cpp:656-669 | the units picked are those of the database that are new, modified, or removed without being deleted, each once |
| Tools.Tool.SetupIncrementalUpdate | lvtclp/ct_lvtclp_tool.cpp:601-684 | what is deleted and what is selected, with and without changes, in both modes |
| Tools.PickedIsSelected | lvtclp/ct_lvtclp_tool.cpp:656-683 | selected units are exactly those that are new, modified, or reach a modified or deleted file, minus the deleted ones; all units outside incremental mode |
| Tools.Tool.FindPhysicalEntities | lvtclp/ct_lvtclp_tool.cpp:686-761 | the store, the dangling pointers, the selection and the state after scan and deletion, by the state it started in; a fault if and only if the deletion meets an erased file object |
| Tools.Tool.RunPhysical | lvtclp/ct_lvtclp_tool.cpp:768-845 | it reports success even after a failed pass; the state tells which |
| Tools.Tool.RunFull | lvtclp/ct_lvtclp_tool.cpp:847-953 | the store, the state and the result of a run from any state; if all changes were detected the store is in order again, started from AllReady or from any store that held nothing false; a fault if and only if the deletion meets an erased file object |
| Tools.ScansAreSound | lvtclp/ct_lvtclp_filesystemscanner.cpp:141-227 | scans find every unit on disk, provided that none is ignored and all are recognised or stored |
| CompilationDatabases.LastDotIsLast | lvtclp/ct_lvtclp_tool.cpp:109-111 | the extension starts at the last dot, and a leading dot starts none |
| CompilationDatabases.ExtensionIs | lvtclp/ct_lvtclp_tool.cpp:109-111 | a stem, a dot and a text without dots is split there |
| CompilationDatabases.CategoryOf | lvtclp/ct_lvtclp_clputil.cpp:311-330 | names with a stem and one of four extensions are headers, with one of six extensions are sources, and with others neither; .t.cpp counts as .cpp |
| CompilationDatabases.CategoryOfOthers | lvtclp/ct_lvtclp_clputil.cpp:311-330 | a name without an extension, and the root, are neither |
| CompilationDatabases.StrippedTogether | lvtclp/ct_lvtclp_tool.cpp:139-145 | two paths agree without extensions if and only if they are in one directory and share a stem |
| CompilationDatabases.CompilationDatabase.AddPath | lvtclp/ct_lvtclp_tool.cpp:96-121 | the path is added unless present; paths and files stay parallel and free of duplicates, the look-ups stay in step |
| CompilationDatabases.CompilationDatabase.Setup | lvtclp/ct_lvtclp_tool.cpp:186-233 | exactly the files of commands that are not ignored are added |
| CompilationDatabases.CompilationDatabase.ContainsFile | lvtclp/ct_lvtclp_tool.cpp:129-146 | the hashed answer equals a linear scan for a path that is the same without extension |
| CompilationDatabases.CompilationDatabase.ContainsPackage | lvtclp/ct_lvtclp_tool.cpp:148-153 | the hashed answer equals a linear scan for a parent or grandparent |
| CompilationDatabases.ListsPackageExactly | lvtclp/ct_lvtclp_tool.cpp:114-120 | these are the directories that hold a listed path or a directory with one |
| CompilationDatabases.CompilationDatabase.AddWanted | lvtclp/ct_lvtclp_tool.cpp:270-284 | the subset holds exactly the joined paths asked for |
| CompilationDatabases.CompilationDatabase.FilesIn | lvtclp/ct_lvtclp_tool.cpp:298-312 | exactly the files of the subset that the parent lists too, each once |
| CompilationDatabases.Subset | lvtclp/ct_lvtclp_tool.cpp:262-312 | both together: the units parsed are those asked for that the full database has |
| PathAlgebra.RenderPrefix | lvtclp/ct_lvtclp_fileutil.cpp:26-34 | the textual test holds if and only if all but the last component agree and the last one's text is a prefix |
| PathAlgebra.RenderInjective | lvtclp/ct_lvtclp_tool.cpp:106-107 | a canonical path can be told from its text |
| PathAlgebra.NonPrefixPart | lvtclp/ct_lvtclp_fileutil.cpp:36-50 | what is left after the components both paths share |
| PathAlgebra.NormalisePath | lvtclp/ct_lvtclp_clputil.cpp:201-213 | relative to the prefix where the text test holds, unchanged elsewhere |
| PathAlgebra.ComponentPrefixStartsWith | lvtclp/ct_lvtclp_fileutil.cpp:26-34 | a prefix by components passes the text test |
| PathAlgebra.SiblingsExist | lvtclp/ct_lvtclp_fileutil.cpp:26-34 | the converse fails: /src and /srcgen/x |
| PathAlgebra.RoundTripExactlyWhen | lvtclp/ct_lvtclp_clputil.cpp:201-213 | joining the prefix with the normalised path gives the path back, except exactly for siblings |
| PathAlgebra.NormaliseInjective | lvtclp/ct_lvtclp_clputil.cpp:201-213 | no two paths other than siblings share a qualified name |
| PathAlgebra.SiblingCollides | lvtclp/ct_lvtclp_clputil.cpp:201-213 | every sibling shares its name with a path below the prefix |
| PathAlgebra.CommonParent | lvtclp/ct_lvtclp_fileutil.cpp:52-109 | the loop with its early returns computes the specified parent |
| PathAlgebra.CommonParentExactly | lvtclp/ct_lvtclp_fileutil.cpp:88-108 | it stops at the longest leading run of the first path that all paths start with; the three-letter rule drops one component more, and only after a mismatch |
| PathAlgebra.CommonParentIsAncestor | lvtclp/ct_lvtclp_fileutil.cpp:52-109 | the result is above a given path exactly when that is no sibling of it; one component less is above every path |
| RunProtocols.RunKeepsInv | lvtclp/ct_lvtclp_tool.cpp:768-953 | every interleaving keeps the invariant on mutex, executor, flag, files and state |
| RunProtocols.ReadyMeansParsed | lvtclp/ct_lvtclp_tool.cpp:903-953 | if the logical pass was reached and the state on return is AllReady, every file of the pass was run and none failed; a failure shows as LogicalError |
| RunProtocols.LogicalPassFollows | lvtclp/ct_lvtclp_tool.cpp:825-872 | in every interleaving a full run whose physical pass has ended, whole, failed or cut, returns only after a logical pass over as many units; until then its state is PhysicalError after a failure, even a cancelled one, NoneReady after a cancel, and PhysicalReady otherwise |
| RunProtocols.RunsEndRight | lvtclp/ct_lvtclp_tool.cpp:768-953 | how any run ends in any interleaving, from any state: which passes it made and over how many units, the state by what its last pass returned and whether that was cancelled, and failure with the state as it was or NoneReady if a checkpoint ended it |
| RunProtocols.LogicalPassReports | lvtclp/ct_lvtclp_tool.cpp:922-953 | a failed logical pass is reported as success, any other as post-processing went |
| RunProtocols.CancelSeesLiveExecutor | lvtclp/ct_lvtclp_tool.cpp:970-980 | whenever a cancelling thread uses the executor it holds the mutex and the executor is alive |
| RunProtocols.TailUsesUpCancel | lvtclp/ct_lvtclp_tool.cpp:909-920 | after the tail section flag and pointer are clear, and every file was either run or dropped, the latter only if a cancel was noted |
| RunProtocols.FilesAreConserved | lvtclp/ct_lvtclp_toolexecutor.cpp:193-241 | at all times each file is at one stage, and no more run than threads are allowed; without a cancel all are run, and an error is returned if and only if some run returned 1 |
| RunProtocols.NeverStuck | lvtclp/ct_lvtclp_tool.cpp:768-980 | while a run is under way some thread can take a step of it, without another cancel |
| RunProtocols.RunsAreBounded | lvtclp/ct_lvtclp_toolexecutor.cpp:193-241 | runner, workers and cancelling threads together take a bounded number of steps, five more for each cancel; a run as long as the bound has ended |
| RunProtocols.RunsEnd | lvtclp/ct_lvtclp_tool.cpp:768-980 | from every reachable state the run can be brought to its end within the bound |
| RunProtocols.PhysicalCompleteExactlyWhen | lvtclp/ct_lvtclp_tool.cpp:825-844 | in every interleaving, the physical pass of a run was complete exactly if during it no cancelling thread cleared the pool while files were queued and no file returned 1 |
| RunProtocols.ReadyAndParsedExactlyWhen | lvtclp/ct_lvtclp_tool.cpp:847-953 | AllReady on return means that both passes were complete, exactly under that condition |
| RunContents.ReadyIsFreshExactlyWhen | lvtclp/ct_lvtclp_tool.cpp:847-953 | a run that returns in AllReady, with whatever other threads did, leaves the contents of an uncancelled run and a fresh store if nothing spoiled its physical pass; in any case the store is fresh exactly if the files that pass did not get to include nothing new; got to are the units whose numbers returned something other than 1 |
| RunProtocols.CutPassEndsReady | lvtclp/ct_lvtclp_tool.cpp:825-844 | an interleaving whose physical pass is cut and which still ends in AllReady |
| RunProtocols.PendingCancelEndsNextRun | lvtclp/ct_lvtclp_tool.cpp:847-860 | a cancel that comes too late for one run stays pending and ends the next at its first checkpoint |
| RunProtocols.CancelAfterScanStaysReady | lvtclp/ct_lvtclp_tool.cpp:736-758 | a run cancelled after its scan returns with the state still AllReady |
| StaticFnHandlers.FlattenFnFacts | lvtclp/ct_lvtclp_staticfnhandler.cpp:161-185 | the state kept by flattening in any graph, and the effect of a first call |
| StaticFnHandlers.FirstCallExactlyWhen | lvtclp/ct_lvtclp_staticfnhandler.cpp:161-185 | in any graph a first call leaves a function complete if and only if each type used through a visited function in its reach is, before the call, on offer at some function reached without passing a visited one |
| StaticFnHandlers.FirstCallHolds | lvtclp/ct_lvtclp_staticfnhandler.cpp:161-185 | in any graph a first call leaves a function with exactly what those functions have on offer before the call |
| StaticFnHandlers.NewlyVisited | lvtclp/ct_lvtclp_staticfnhandler.cpp:161-185 | a first call visits exactly the functions reached without passing one visited before |
| StaticFnHandlers.UnvisitedRootIsExact | lvtclp/ct_lvtclp_staticfnhandler.cpp:161-185 | a root none of whose reachable functions was visited holds exactly the types it uses through calls |
| StaticFnHandlers.FlattenAllProgress | lvtclp/ct_lvtclp_staticfnhandler.cpp:195-199 | flattening all functions in any order adds only types that are used through calls, and visits every function |
| StaticFnHandlers.FlattenAllCompletes | lvtclp/ct_lvtclp_staticfnhandler.cpp:195-199 | a function with no cycle in its reach holds every type it uses through calls |
| StaticFnHandlers.WrittenIsImplied | lvtclp/ct_lvtclp_staticfnhandler.cpp:187-212 | each edge written is implied by some function a type uses |
| StaticFnHandlers.ImpliedIsWritten | lvtclp/ct_lvtclp_staticfnhandler.cpp:187-212 | each edge implied by a function with no cycle in its reach is written |
| StaticFnHandlers.ImpliedIs | lvtclp/ct_lvtclp_staticfnhandler.cpp:187-212 | implied edges join two different types, neither null, by a path of calls from a function one uses to a function that uses the other |
| StaticFnHandlers.AcyclicIsHarmless | lvtclp/ct_lvtclp_staticfnhandler.cpp:161-185 | in a call graph without cycles no path does harm |
| StaticFnHandlers.CyclesCanLoseEdges | lvtclp/ct_lvtclp_staticfnhandler.cpp:161-212 | a graph and an order in which an implied edge is not written |
| StaticFnHandlers.AlwaysCompleteExactlyWhen | lvtclp/ct_lvtclp_staticfnhandler.cpp:161-212 | the call graphs for which every implied edge is written, in every order and for all types and uses, are exactly those in which along every simple path the last function still reaches, past the others or up to one of them, all that it reaches |
| StaticFnHandlers.HarmlessCompletes | lvtclp/ct_lvtclp_staticfnhandler.cpp:161-199 | in such a graph every function ends with all the types it uses through calls, whatever the order |
| StaticFnHandlers.AlongPath | lvtclp/ct_lvtclp_staticfnhandler.cpp:161-185 | in the order that goes straight along a path, what its last function holds is settled by its first call |
| StaticFnHandlers.TypeStore.AddUsesInImpl | lvtclp/ct_lvtclp_clputil.cpp:303-309 | adds the edge unless an end is null or both are the same, and nothing else |
| StaticFnHandlers.StaticFnHandler.AddFnUsesUdt | lvtclp/ct_lvtclp_staticfnhandler.cpp:140-144 | one more type for one function |
| StaticFnHandlers.StaticFnHandler.AddFnUsesFn | lvtclp/ct_lvtclp_staticfnhandler.cpp:146-153 | one more callee for one function, unless it is itself |
| StaticFnHandlers.StaticFnHandler.AddUdtUses | lvtclp/ct_lvtclp_staticfnhandler.cpp:155-159 | one more function for one type |
| StaticFnHandlers.StaticFnHandler.FlattenFn | lvtclp/ct_lvtclp_staticfnhandler.cpp:161-185 | the in-place recursion computes the specified flattening, and its stray entries change no callee |
| StaticFnHandlers.StaticFnHandler.WriteOutToDb | lvtclp/ct_lvtclp_staticfnhandler.cpp:187-212 | no new edge has equal or null ends; each stands for a type that uses a function from which a path of calls leads to one that uses the other type; if no path does harm, so in every graph without cycles, the new edges are exactly those; all are written that a function with no cycle in its reach implies, and the early exit loses none |
| StaticFnHandlers.StaticFnHandler.WriteEdges | lvtclp/ct_lvtclp_staticfnhandler.cpp:201-211 | the nested loops write exactly the edges of the flattened maps |
| StaticFnHandlers.StaticFnHandler.Reset | lvtclp/ct_lvtclp_staticfnhandler.cpp:214-217 | everything is forgotten |
| HeaderCallbackGraphs.PhysicalStore.GetOrAddPackage | lvtmdb/ct_lvtmdb_objectstore.cpp:275-290 | an existing package keeps its parent; no two packages become each other's parent |
| HeaderCallbackGraphs.PhysicalStore.WriteSourceFile | lvtclp/ct_lvtclp_clputil.cpp:92-263 | a new file goes to the package of its directory if that is stored, and no package is added then; otherwise exactly the package and, if there is one, the group that the rules give are added, the group without a parent and the package with the group as parent; its component is named by package or by directory; known files, packages and parents stay, and no dependency changes |
| HeaderCallbackGraphs.PhysicalStore.AddComponentDependency | lvtmdb/ct_lvtmdb_databaseobject.h:70-101 | one more edge, never from an object to itself |
| HeaderCallbackGraphs.PhysicalStore.AddPackageDependencies | lvtclp/ct_lvtclp_headercallbacks.cpp:141-166 | the package edge and the edges between a standalone package and a group |
| HeaderCallbackGraphs.PhysicalStore.AddInclude | lvtclp/ct_lvtclp_headercallbacks.cpp:118-166 | one more include; both graphs remain the projections of all includes |
| HeaderCallbackGraphs.HeaderCallbacks.FileChanged | lvtclp/ct_lvtclp_headercallbacks.cpp:169-189 | the current file is the one entered, with its package as above, or none if that is ignored |
| HeaderCallbackGraphs.HeaderCallbacks.InclusionDirective | lvtclp/ct_lvtclp_headercallbacks.cpp:54-167 | an include is recorded exactly between two different files of which neither is ignored, the new one with its package as above; the projections are kept |
| HeaderCallbackGraphs.StandaloneAndGroup | lvtclp/ct_lvtclp_headercallbacks.cpp:141-166 | from an empty store, any file of a standalone package and any of a package in a group: an include between them, either way, gives the edge of the packages and the one between the standalone package and the group, and no other |
| HeaderCallbackGraphs.TextInjective | lvtclp/ct_lvtclp_clputil.cpp:102-107 | a directory can be told from the text that packages are looked up by |
| HeaderCallbackGraphs.ComponentEdgesExactly | lvtclp/ct_lvtclp_headercallbacks.cpp:118-139 | component edges are exactly the includes between files of different components |
| HeaderCallbackGraphs.PackageEdgesExactly | lvtclp/ct_lvtclp_headercallbacks.cpp:141-166 | package edges are exactly the includes between files of different packages and the two lifted kinds |
| HeaderCallbackGraphs.IncludesProject | lvtclp/ct_lvtclp_headercallbacks.cpp:118-142 | every transitive include is a path in the component graph and one in the package graph |
| HeaderCallbackGraphs.ComponentWalkProjects | lvtclp/ct_lvtclp_headercallbacks.cpp:118-142 | every path in the component graph is one in the package graph if no component is split |
| HeaderCallbackGraphs.DependenciesCarryOverExactlyWhen | lvtclp/ct_lvtclp_headercallbacks.cpp:118-166 | whatever is included, dependencies between components are dependencies between their files' packages, if and only if no component is split between packages or there is only one |
| HeaderCallbackGraphs.CyclesCarryOverExactlyWhen | lvtclp/ct_lvtclp_headercallbacks.cpp:118-166 | under the same condition and no other, whatever is included, components that depend on each other put their files' packages on package cycles, where these differ |
| HeaderCallbackGraphs.NamingSplits | lvtclp/ct_lvtclp_clputil.cpp:92-197 | the naming rules do split a component: a header met before its directory is a package, and a unit scanned there later |
| HeaderCallbackGraphs.SplitComponentHidesCycle | lvtclp/ct_lvtclp_headercallbacks.cpp:118-142 | three files with a component cycle over two packages, and no package on any cycle |
| PackageScans.AddKeepsInv | lvtclp/ct_lvtclp_filesystemscanner.cpp:297-354 | a directory with a name is recorded, and nothing recorded is lost |
| PackageScans.ScanKeepsInv | lvtclp/ct_lvtclp_filesystemscanner.cpp:223-295 | each scanned path keeps names, packages, parents and files in step |
| PackageScans.ScansSeparate | lvtclp/ct_lvtclp_filesystemscanner.cpp:223-354 | after any paths a name is a group or a package but not both, except at most the made-up group's; each file outside the prefix itself has a recorded package |
| PackageScans.FiledUnderOwnPackage | lvtclp/ct_lvtclp_filesystemscanner.cpp:267-300 | after any paths each file is filed, in order, under its own directory, or under the made-up group if it is of no component and lies in the prefix itself |
| PackageScans.PackagesByKind | lvtclp/ct_lvtclp_filesystemscanner.cpp:267-354 | the packages with their parents are exactly those that the kinds of the paths call for: the directory of a file, under the directory above in a group, without parent if standalone, under the made-up group if flagged or of no component; and flagged directories above |
| PackageScans.GroupsByKind | lvtclp/ct_lvtclp_filesystemscanner.cpp:267-354 | what is no package is a group exactly if some path calls for it, and a package is no group, whatever the order, but for the made-up name |
| PackageScans.SeparateExactlyWhen | lvtclp/ct_lvtclp_filesystemscanner.cpp:267-354 | the exception happens if and only if a directory with that name is recorded as a package and the group is needed after that |
| PackageScans.NonLakosianDirectoryIsBoth | lvtclp/ct_lvtclp_filesystemscanner.cpp:278-295 | two paths for which it happens |
| PackageScans.PackageScanner.Scan | lvtclp/ct_lvtclp_filesystemscanner.cpp:141-150 | a scanner that was fed paths has recorded what the fold over them says |
| PackageScans.PackageScanner.AddPackage | lvtclp/ct_lvtclp_filesystemscanner.cpp:356-402 | a stored package is left alone; a missing one is added with its parent, which becomes a group if missing too |
| PackageScans.PackageScanner.AddToDatabase | lvtclp/ct_lvtclp_filesystemscanner.cpp:404-434 | every recorded name, so the package of every file outside the prefix, is stored afterwards; stored packages are unchanged, and the new ones are listed; a new one has the parent of its first record, and has none if a group, or a package added before, needed it first |
| PackageScans.FirstRecordIsStored | lvtclp/ct_lvtclp_filesystemscanner.cpp:356-402 | a package that no group and no package before it is or asks for is still to be stored when its first record comes |
| PackageScans.EarlierNeedLosesParent | lvtclp/ct_lvtclp_filesystemscanner.cpp:338-402 | two paths after which a directory is recorded as a package with a parent, as the comment there wants, and yet is stored without it |
| CodegenTrees.EntitiesTreeModel.constructor | lvtcgn/ct_lvtcgn_cogedentreemodel.cpp:82-103 | items start checked or unchecked as their entities are |
| CodegenTrees.EntitiesTreeModel.SetCheckState | lvtcgn/ct_lvtcgn_cogedentreemodel.cpp:36-47 | a click sets off one cascade, and none if the state is the same; flags follow check states |
| CodegenTrees.EntitiesTreeModel.ItemChanged | lvtcgn/ct_lvtcgn_cogedentreemodel.cpp:36-47 | the handler with its re-entrancy flag computes the cascade and restores the flag |
| CodegenTrees.EntitiesTreeModel.UpdateAllChildrenState | lvtcgn/ct_lvtcgn_cogedentreemodel.cpp:50-60 | all that is below takes the state, unless it is partial |
| CodegenTrees.EntitiesTreeModel.UpdateParentState | lvtcgn/ct_lvtcgn_cogedentreemodel.cpp:62-80 | all ancestors are recomputed from their children |
| CodegenTrees.EntitiesTreeModel.ChildrenState | lvtcgn/ct_lvtcgn_cogedentreemodel.cpp:69-78 | the children's common state, or partial |
| CodegenTrees.ClickKeepsConsistent | lvtcgn/ct_lvtcgn_cogedentreemodel.cpp:36-80 | a click keeps every parent equal to its children's common state, sets what is below the item, and leaves what is beside it |
| CodegenTrees.ClicksKeepConsistent | lvtcgn/ct_lvtcgn_cogedentreemodel.cpp:36-80 | so does any sequence of clicks, and leaves never become partial |
| CodegenTrees.LeavesDetermine | lvtcgn/ct_lvtcgn_cogedentreemodel.cpp:62-80 | consistent trees that agree on the leaves are the same |
| CodegenTrees.StatesByLeaves | lvtcgn/ct_lvtcgn_cogedentreemodel.cpp:62-80 | on a consistent tree an item is checked if and only if all leaves at or below it are, unchecked if and only if none is, and so partial otherwise |
| CodegenTrees.CascadesIdleExactlyWhen | lvtcgn/ct_lvtcgn_cogedentreemodel.cpp:36-80 | cascades without a state change are no-ops if and only if the tree is consistent |
| CodegenTrees.CodeGeneration.RecursiveBuild | lvtcgn/ct_lvtcgn_generatecode.cpp:171-186 | the pruned traversal processes the specified sequence |
| CodegenTrees.BuildMembers | lvtcgn/ct_lvtcgn_generatecode.cpp:171-186 | an entity is processed if and only if it and all above it, up to an entity of the list, are selected |
| CodegenTrees.BuildInOrder | lvtcgn/ct_lvtcgn_generatecode.cpp:171-186 | each entity once, parents before children |
| CodegenTrees.GeneratesWhatIsChecked | lvtcgn/ct_lvtcgn_generatecode.cpp:171-186 | on a consistent tree exactly the entities with a checked leaf at or below them are processed |
| CodegenTrees.ShouldDefaultSelect | lvtcgn/ct_lvtcgn_app_adapter.cpp:35-50 | an entity is selected by default if and only if no entity at or above it is the group of external dependencies |
| CodegenTrees.DefaultConsistentExactlyWhen | lvtcgn/ct_lvtcgn_app_adapter.cpp:35-50 | the default selection is consistent if and only if such a group stands only at top level or inside another |

## Left out

- Parsing by clang: a file's content is a set of include directives and a set of entities; the AST visitor, `lookupType` and ignored includes are not part of this model.
- MD5: hashes are injective on contents. Ignore globs are sets of ignored paths.
- Tools.FilesystemScanner.ScanHeader: the candidate headers of a unit, with their include directories and extensions, are given in order; a directory named like a header is not modelled.
- Tools.Tool.RunFull: does not model cancels, the `skipPhysical` flag or changes on disk during the run; RunProtocols has the first two on counts of files, without store contents.
- Tools.Tool.SetupIncrementalUpdate: assumes that no unit lies in a directory whose name extends the source directory's; there qualified names collide (PathAlgebra.SiblingCollides).
- StaticFnHandlers.ImpliedIsWritten: does not cover edges that only functions reaching a cycle imply, because the code can lose them (CyclesCanLoseEdges); AlwaysCompleteExactlyWhen says for which graphs it never does.
- StaticFnHandlers.StaticFnHandler.WriteOutToDb: starts with nothing visited, as it does where it is used: `reset` follows each call (lvtclp/ct_lvtclp_logicaldepscanner.cpp:208-209).
- StaticFnHandlers: the walk over `fnDepFn` uses a snapshot of its keys; what inserting into an unordered map does to an iteration under way is not modelled, nor are collisions of function ids.
- HeaderCallbackGraphs.CyclesCarryOverExactlyWhen: a package cycle is asked for at the package of each file on the component cycle; that some other package may lie on a cycle is not considered.
- ObjectStores.ObjectStore.RemoveFile: faults are those of reverse includes to erased file objects. Other ways for a removal to fail are kept apart, in TypeDeletions: a unit with `struct A { struct B {}; };` that is parsed and edited makes it touch an erased type object (EditingNestedTypes), so does editing the header of a class that its includer declares again (EditingSharedType), and editing the only file that opens a namespace and declares a class in it gets it stuck on a lock (EditingNamespace). None of them counts against what is said of runs elsewhere.
- IncrementalUpdates.IncrementalExactlyWhen: entities are names kept per file. A kept file that declares a class without including its header goes on listing the class when an edit of the header has erased it; that such an entry dangles, where a parse from scratch would give a live one, is not seen.
- What happens once a pointer to an erased object is followed is undefined and ends the model; addresses of erased objects are never used again. What a removal does to functions, variables, methods, fields, components and packages is not modelled.
- TypeDeletions.RunTouchesErasedExactlyWhen: files of a nested type are taken to include one of the outer type; DeletionTouchesExactlyWhen and EveryOrderSafeExactlyWhen hold without that. Which of a type's files post-processing picks is left out.
- TypeRemovals.TypeStore.RemoveType: does not model the unlinking from namespace and package, nor the removal of methods and fields.
- Lists of dependencies are sets: their order is not modelled.
- HeaderCallbackGraphs.PhysicalStore.WriteSourceFile: whether a directory that is no stored package is standalone, grouped, mapped to a third-party name or taken by a packing rule is given, since file name patterns, expressions and scripts decide it.
- PackageScans.PackageScanner.AddPackage: a package that is found later with another parent keeps the first one, so parents depend on the order of paths (EarlierNeedLosesParent).
- RunProtocols: per-object locks in the store, a second running thread, and `runPhysical(true)` called from outside are not modelled. The outcome of post-processing is a choice.
- CodegenTrees: Python scripts and their exceptions, Qt items, and the cache of wrapped nodes are left out. Entities are numbered in the order they are first met.
- Widgets, preferences, D-Bus, SQL readers and writers, command lines and compiler probing.
