# A verified model of godinstall

godinstall is an apt repository that never edits its archive in place. Every blob is stored under the hash of its
content; a *release* names an index, a configuration, the generated files and its parent release; a *distribution* is
a reference to its newest release. An upload merges one entry into the index of the head, prunes by rules, and puts a
new release on top. Old releases stay in the history, a trim mark says how far back they keep their packages, and a
mark-and-sweep collector removes the rest.

The model follows the program's form. Where the program loops or updates fields, there is a method with a loop or a
class; it is proved equal to a function or a relation, and the theorems are about those.

| part | modules |
|---|---|
| version order and version text | `DebVersions`, `VersionOrder`, `VersionText` |
| the sorted index, pruning, merging | `ReleaseIndex`, `ReleaseEntry`, `Prune`, `Retention`, `Merge`, `MergeLaws` |
| history, trimming, log | `History`, `Trim`, `HistoryLog` |
| collector and archive | `Collector`, `ArchiveStore`, `Archive`, `ArchiveSteps`, `Runs`, `RaisedLength` |
| request governor | `Governor` |
| control files, changes files, upload sessions | `Control`, `ControlText`, `ControlPrint`, `ControlRoundTrip`, `Changes`, `Session`, `Server` |

## Main results

1. **Nothing needed is ever lost** (`Runs.RunIsSafe`, `Runs.RunIsOrderly`, `Runs.HistoryOnlyGrows`). Over every run of
   sessions, uploads, configuration changes, creations, deletions and collections, in any order, the collector finds
   every object it opens, every release inside its branch's window has its index, configuration and files, and every
   release a branch ever had is stored for as long as the branch exists.
   An upload merges any entry built from blobs its session stored, into a branch whose rules do not make the pruner
   dereference nil. `Server.ServerRefines` shows that upload handlers provide such entries. One thing is asked of the
   administrator: when an upload commits, the releases that its trim brings back into the window still have their
   assets. The condition is exact (`ArchiveSteps.UploadKeepsIff`), and needed: for any rules there is a run that is
   allowed but for it and leaves the collector an index to open that is gone (`RaisedLength.RaisedLengthRun`). It holds
   when the trim length lies inside the head's window (`Archive.CoveredIff`), and `Archive.AllowedStaysInside` says
   which lengths are safe to set at any time.
2. **The collector is exact** (`ArchiveStore.ArchiveBlobStore.RunGC`, `Collector.GcWalkRelease`,
   `ArchiveStore.SweepIdempotent`). In the states of result 1 a sweep leaves exactly the release objects of all chains
   and what the releases inside the windows use, whatever the order of the references; a second sweep changes nothing.
   What is used is said field by field (`Collector.AssetsOverFields`, `ArchiveStore.SweepOverFields`).
   `TrimHistory`, the collector's countdown and the log's countdown are three loops about one window
   (`History.InWindow`).
3. **Comparing versions is dpkg's order** (`VersionOrder.ComparisonIsKeyOrder`, `VersionOrder.VersionTransitive`). The
   loops over two cursors order strings by the keys of section 5.6.12 of the Debian Policy Manual, and digit runs of any
   length by the numbers they denote; versions go by epoch, then by these keys (`VersionOrder.CompareMeaning`). This
   holds of *regular* strings, whose NUL bytes, if they have any, all come directly after digits. For all strings,
   numbers in decimal compare as numbers and common text does not matter (`VersionOrder.NumbersDecide`,
   `VersionOrder.CommonText`).
4. **The streaming merge is insert-if-absent, then prune** (`Merge.MergeEntryIntoRelease`), with a log that conserves
   entries (`MergeLaws.LogConserves`) and an exact condition for a commit (`MergeLaws.CommitIff`). The pruner's counters
   are ranks (`Retention.KeptIffRetained`, `Retention.RanksIffGrouped`), pruning is idempotent
   (`Prune.PruneIdempotent`), and uploading again what is there changes nothing (`MergeLaws.MergeAgain`).
5. **Locks** (`Runs.RunGate`, `Runs.ReceivedStays`, `Runs.DeferredSweepRuns`, `Governor.WriterIsAlone`). With a limit,
   the governor's threads wait only for tokens, and it can get stuck, then for good, exactly when the limit and the
   number of threads are both at least two (`Governor.StuckIffLimits`, `Governor.StuckForGood`).
6. **Text and encodings come back** (`ControlRoundTrip.ParseOfPrinted`, `ControlRoundTrip.StoredFileReadsBack`,
   `VersionText.ParseOfString`), each with the exact condition. What the parsers make of any other text is said by laws
   about the text (`ControlText.EmptyLineSeparates`, `ControlText.FieldAddsValues`, `ControlText.RefusedIff`,
   `VersionText.ParseOfText`, `Changes.HashesOverColumns`).
7. **Only what was announced gets in** (`Session.AcceptedIff`, `Session.MergedOnce`, `ReleaseEntry.EntryOverFields`). A
   session accepts exactly the files its changes file lists, each once and with all three digests, asks for one merge
   when all are in, and the entry made of them has each file in its place.

## Where the code and what is said of it differ

- The comment on `TrimHistory` (trim.go:36-42) says a history already trimmed shorter is left alone. `activeTrim` starts
  at 0 and can only become smaller than itself, so that early return is never taken. The trim reopens the window exactly
  when it ended sooner (`Trim.ShorterTrimIsOverridden`), and what that asks of the store is
  `ArchiveSteps.UploadKeepsIff`.
- `"1.0"` and `"1.00"` compare equal but the pruner counts them as two versions (prune.go:61, prune.go:68). Uploads
  can make a sorted index alternate between them (`MergeLaws.AlternatingIsGrown`), and then the counter runs ahead of the
  rank. The counters are ranks iff entries spelled alike stand together (`Retention.RanksIffGrouped`), which consistent
  spelling ensures (`Retention.SpelledIsGrouped`). Idempotence and everything about merging need no such condition.
- A NUL byte weighs as much as the end of a string and as a digit (debversion.go:81-92). The order holds for the strings
  whose NULs all come directly after a digit, and for no others (`VersionOrder.RegularIffTiesAgree`).
- The pruner dereferences a nil rule exactly when a package with two or more entries has no matching rule or no name, or
  the first entry has no name but a version (`Retention.PanicsIffUncovered`): the closure starts at the empty name, so it
  looks up no rule for it. Merging is specified where that does not happen.
- A failure of the upload hook is put into `err`, but `doAddFile` then returns nil (upload_session.go:380-388): the file
  counts as received, with the hook's result on record (`Session.HookDecidesNothing`).
- Removing only the entry that equals the upload is logged as SKIPPRUNE and is not committed (`MergeLaws.CommitIff`).
- Two concurrent writers can block each other in the governor for good, for every limit of at least two
  (`Governor.StuckIffLimits`).

## Conventions

Ids are injective in the content, so a value stands for its id (`StoreID`), chains have no cycles and an id tells the
kind of its object. `AssetID` is the id of a blob nobody looks into; `NoAsset` is the empty id. The store is a set of
ids, the references a map. Files written by release signing, dates, matching of rules and what the package reader says
of a file are parameters, so the theorems hold for all of them. The flag `verifyDebs` of a session says that a .deb
needs a signature of its own: `VerifyDebs` without `VerifyChangesSufficient`.

## Model

| member | source | states |
|---|---|---|
| `VersionOrder.WeightsFollowPolicy` | debversion.go:78-94 | tilde before everything, even the end; letters before all other characters; otherwise by code |
| `VersionOrder.AsciiWeights` | debversion.go:78-94 | the same on ASCII, with the letters and digits written out |
| `VersionOrder.KeyTrichotomy` | debversion.go:96-161 | of "less", "same" and "greater" on keys exactly one holds |
| `VersionOrder.KeyTransitive` | debversion.go:96-161 | the key order is transitive, and so is "same" |
| `VersionOrder.LongerRunIsBigger` | debversion.go:146-151 | without leading zeros, the run with more digits denotes the larger number |
| `VersionOrder.RunsLeft` | debversion.go:134-151 | the lock-step loop leaves digits on just the side with the longer run |
| `VersionOrder.EqualRuns` | debversion.go:134-154 | for runs of one length the first difference has the sign of the difference of the numbers |
| `VersionOrder.DigitsCompareAsNumbers` | debversion.go:120-154 | zero skipping and the digit loop together order two runs of any length as natural numbers, an empty run as 0, and on a tie stand just behind both runs |
| `VersionOrder.ComponentMeetsKeys` | debversion.go:96-161 | where no digit faces a NUL the comparison has the sign of the first difference of the keys |
| `VersionOrder.ComparisonIsKeyOrder` | debversion.go:96-161 | for regular strings, in particular those without NUL: negative, zero, positive iff the first key is less, the same, greater |
| `VersionOrder.ComponentMirror` | debversion.go:96-161 | swapping the arguments exactly negates the result, for all strings |
| `VersionOrder.ComponentTransitive` | debversion.go:96-161 | at most is transitive; equal at the ends iff equal at both steps |
| `VersionOrder.VersionMirror` | debversion.go:62-77 | comparing versions is exactly antisymmetric, and a version equals itself |
| `VersionOrder.VersionTransitive` | debversion.go:62-77 | with VersionMirror: a total preorder over epoch, version and revision |
| `VersionOrder.CompareMeaning` | debversion.go:62-77 | newer iff the epoch is larger, or equal and the key of the version larger, or both equal and that of the revision larger; a tie iff all three agree |
| `VersionOrder.EpochFirst` | debversion.go:63-68 | for all strings, a larger epoch is newer, and equal epochs do not matter |
| `VersionOrder.FirstCharacterDecides` | debversion.go:101-119 | a string that starts with a tilde is smaller than any that does not; one that starts with another non-digit is larger than the end, a number or a tilde, and against another non-digit the weights decide |
| `VersionOrder.CommonText` | debversion.go:101-119 | text without digits that both strings start with does not matter |
| `VersionOrder.NumbersDecide` | debversion.go:120-154 | for all numbers m and n, strings that start with them in decimal compare as m and n, and if m = n as what follows |
| `VersionOrder.TiesWithFilled` | debversion.go:101-119 | a string ties with the string that has any digit in place of each NUL not directly after a digit |
| `VersionOrder.FilledDiffers` | debversion.go:134-154 | and of two such strings the one with the larger digit is larger |
| `VersionOrder.RegularIffTiesAgree` | debversion.go:78-119 | the strings whose NULs all come directly after digits are exactly those with which comparing equal is transitive; any other ties with two of them of which one is smaller |
| `DebVersions.SkipText` | debversion.go:101-119 | the non-digit loop ends with a nonzero difference or with both sides at a digit or their end |
| `DebVersions.SkipZeros` | debversion.go:120-133 | what is left does not start with a zero |
| `DebVersions.SkipDigits` | debversion.go:134-145 | at most one side still shows a digit |
| `DebVersions.TextLoop` | debversion.go:101-119 | the cursor loop returns the difference, or leaves the two rests, of the recursive form |
| `DebVersions.ZeroLoop` | debversion.go:120-133 | the cursor passes exactly the leading zeros |
| `DebVersions.DigitLoop` | debversion.go:134-145 | the cursors and `firstdiff` are those of the recursive form |
| `DebVersions.CompareComponentLoop` | debversion.go:96-161 | the nested loops terminate and compute the comparison the order theorems are about |
| `VersionText.IntRead` | debversion.go:19-43 | a 64-bit number is read back from its decimal text, which holds no colon |
| `VersionText.SplitOfBody` | debversion.go:45-54 | version and revision are split again iff no dash is misread |
| `VersionText.ParseOfString` | debversion.go:16-57 | reading back the text of a version gives the version iff it is `Rereadable` |
| `VersionText.SignedDigits` | debversion.go:36-41 | digits, with or without a sign, are read as an epoch iff they fit into 64 bits |
| `VersionText.OnlyDigitsAreRead` | debversion.go:36-41 | and nothing else is read as an epoch |
| `VersionText.ParseOfText` | debversion.go:33-57 | any text: the epoch stands before the first colon, the revision behind the last dash of the rest; both may be absent, and an unreadable epoch is an error |
| `ReleaseIndex.BytesCompare` | releaseindex.go:134-137 | zero iff the names are equal |
| `ReleaseIndex.BytesLexicographic` | releaseindex.go:134-137 | a proper prefix comes first, else the first difference decides |
| `ReleaseIndex.EntryMirror` | releaseindex.go:133-144 | swapping entries negates the order; an entry ties with itself |
| `ReleaseIndex.EntryTransitive` | releaseindex.go:133-144 | with EntryMirror: a total preorder on entries, names up and versions down |
| `ReleaseIndex.EntryOrderMeaning` | releaseindex.go:133-144 | an entry comes before another iff its name is smaller, or the names are equal and its epoch, then version key, then revision key is larger; a tie iff all agree |
| `ReleaseIndex.SortedHasNoTwins` | releaseindex.go:133-144 | no two entries of a sorted index share a name and an equal-comparing version |
| `ReleaseEntry.NewReleaseIndexEntry` | releaseindex.go:48-115 | fails iff some .deb is unreadable or of another version; otherwise each .deb is one binary item and each other file one source file, with its id, size and signers, and the control id is that of a .dsc |
| `ReleaseEntry.EntryOverFields` | releaseindex.go:48-115 | each .deb is one binary item with the name, version and architecture of its package, its control id and one file with its name, id, size and signers; each other file is one source file; the source has the control id of a .dsc, or none |
| `ReleaseEntry.EntryUsesOnlyReceived` | releaseindex.go:48-115 | an entry refers to nothing but its changes file and what the session stored |
| `Prune.RuleSet.PicksFirst` | prune.go:48-56 | the first rule whose pattern matches is picked; none iff none matches |
| `Prune.Pruner.constructor` | prune.go:29-36 | a new pruner has seen nothing |
| `Prune.Pruner.FindRule` | prune.go:48-56 | the loop leaves the first matching rule; with no rules at all the old choice stays |
| `Prune.Pruner.Prune` | prune.go:38-90 | one call of the closure: its answer and all seven captured variables |
| `Prune.PruneAgain` | prune.go:38-90 | a pruner lagging behind another keeps all that the other has kept |
| `Prune.PruneIdempotent` | prune.go:29-91 | pruning what was pruned removes nothing |
| `Prune.SortedHasNoRepeat` | releaseindex.go:133-144 | a sorted index never repeats a version, as idempotence needs |
| `Retention.StateAt` | prune.go:38-75 | on a sorted, grouped index the counters are the numbers of distinct versions and revisions of the package seen so far |
| `Retention.LastSeenAt` | prune.go:38-75 | after an entry the closure remembers it, and the first rule that matches its package, none for the empty name |
| `Retention.UpToIsAtLeast` | prune.go:61-75 | those seen so far are the ones at least as new in the version order |
| `Retention.PrunesAt` | prune.go:38-90 | the closure removes the entry at a place iff its rank is over a limit |
| `Retention.KeptIffRetained` | prune.go:29-91 | on a sorted, grouped index an entry survives iff it is among the newest V+1 versions and R+1 revisions for the first matching rule |
| `Retention.SpelledIsGrouped` | releaseindex.go:133-144 | a sorted index with consistently spelled versions is grouped |
| `Retention.CounterRunsAhead` | prune.go:61-75 | without grouping the version counter is at least the rank, and exceeds it once a spelling comes back |
| `Retention.ReturnedIsPruned` | prune.go:61-87 | an entry whose spelling comes back is removed by some limit that should keep it |
| `Retention.RanksIffGrouped` | prune.go:29-91 | survival is rank within the limits, for all rules and entries, iff the sorted index is grouped |
| `Retention.SpellingsCanAlternate` | releaseindex.go:133-144 | 1.0-3, 1.00-2, 1.0-1 is a sorted index that is not grouped |
| `MergeLaws.AlternatingIsGrown` | releaseindex.go:198-309 | and three uploads make it, without a nil rule, under any rules that match the package and limit nothing |
| `Retention.NewestIsKept` | README.md:155-156 | the newest entry of each package survives |
| `Retention.PanicsIffUncovered` | prune.go:77-87 | a nil rule is dereferenced iff a package with a second entry has no matching rule or no name, or the first entry has no name but a version |
| `Merge.Position` | releaseindex.go:228-274 | all before the position come before the entry, the one there does not |
| `Merge.SlotsAreInsert` | releaseindex.go:223-305 | the order in which the pass meets elements is the index with the entry inserted unless it ties |
| `Merge.MergeEntryIntoRelease` | releaseindex.go:198-309 | one streaming pass gives prune(insert-if-absent), keeps the old entry on a tie, shows the pruner each element once in merged order, and logs each outcome |
| `MergeLaws.PresentAtPosition` | releaseindex.go:229-257 | in a sorted index an entry comparing equal can only be where the pass looks |
| `MergeLaws.InsertSorted` | releaseindex.go:223-305 | inserting keeps the index strictly increasing and adds just the absent entry |
| `MergeLaws.MergeSorted` | releaseindex.go:198-309 | merging keeps an index strictly increasing |
| `MergeLaws.MergedFrom` | releaseindex.go:198-309 | for all versions and any index: a merged index holds only old entries and the new one |
| `MergeLaws.GrownSorted` | releaseindex.go:198-309 | every index reachable from the empty one by merges, under changing rules, is strictly increasing |
| `MergeLaws.MergeCloses` | releaseindex.go:223-305 | pruning a merged index again removes nothing |
| `MergeLaws.GrownClosed` | releaseindex.go:223-305 | every reachable index is closed under the rules of its last merge |
| `MergeLaws.LogConserves` | releaseindex.go:223-305 | entries before plus the new one, if absent, are the merged entries plus, in order, those logged PRUNE or SKIPPRUNE |
| `MergeLaws.AddedIffNew` | releaseindex.go:258-304 | one ADD, of the entry itself, is logged iff the entry was absent and is in the merged index |
| `MergeLaws.DescriptionReads` | releaseindex.go:228-300 | a line of the log is the source name, a space and text that reads back as the version |
| `MergeLaws.DescriptionsDiffer` | releaseindex.go:228-300 | so two lines agree iff name and version do, where names have no space |
| `MergeLaws.MergeAgain` | releaseindex.go:241-257 | into a closed index, an entry comparing equal to one there: same index, one SKIPPRESENT, no commit |
| `MergeLaws.UploadTwice` | archive.go:316-361 | uploading a second time what the first upload added changes nothing and commits nothing |
| `MergeLaws.FindRealChange` | archive.go:321-356 | true iff some action is ADD, PRUNE or DELETE |
| `MergeLaws.CommitIff` | archive.go:321-361 | a commit follows iff the entry was absent or an entry other than its equal was removed |
| `History.ChainSuffix` | release.go:122-131 | a release on a chain heads the rest of it |
| `History.ChainDistinct` | release.go:128-131 | no release is its own ancestor |
| `History.FirstTrimmedUnique` | archivestore.go:154-157 | one release of a chain, if any, sets the countdown |
| `History.GrowChain` | release.go:491-514 | all fields of a new head: chain, index, files, date, what it has from its parent, and its mark: length + 1, noted in the log, when there are length + 2 ancestors, else its parent's |
| `History.TrimmedWindow` | trim.go:48-95 | after a trim by length n the window is the head and its n + 1 nearest ancestors, whatever older marks say |
| `History.ChildWindow` | release.go:128-131 | the window of a child in terms of its parent's, inherited or by its own mark |
| `Trim.LengthTrimmer.Trim` | trim.go:24-34 | answers no count + 1 times, then yes for ever |
| `Trim.ReleaseDraft.TrimHistory` | trim.go:43-97 | sets the mark to n + 1 and logs it iff n >= 0 and there are at least n + 2 ancestors; fails, changing nothing, iff an ancestor it opens is missing |
| `Trim.NewRelease` | release.go:491-514 | the release that is stored, and when building it fails; a missing config does not trim |
| `Trim.ShorterTrimIsOverridden` | trim.go:36-82 | a trim by length n reopens the window exactly when it ended before depth n + 1, whatever mark ended it |
| `Collector.GcWalkReleaseConfig` | archivestore.go:71-80 | marks a config and its keys; a missing config reads as one without keys |
| `Collector.GcWalkReleaseIndexEntryItem` | archivestore.go:82-88 | marks the control data and all files of an item |
| `Collector.GcWalkItems` | archivestore.go:103-105 | marks all that the binary items of an entry use |
| `Collector.GcWalkComponents` | archivestore.go:135-140 | marks the Sources and Packages files of all components |
| `Collector.GcWalkArchitectures` | archivestore.go:137-139 | marks the Packages files of one component |
| `Collector.GcWalkReleaseIndex` | archivestore.go:90-108 | marks an index and exactly what its entries use |
| `Collector.GcMarkRelease` | archivestore.go:126-145 | marks a release and, unless dropped, exactly its assets, although a marked index is not read again |
| `Collector.AssetsOverFields` | archivestore.go:71-145 | what a release uses is its index, its config, and the ids in its fields, in those of a config that can be read and in those of the entries of its index; written out over the fields |
| `Collector.CountdownIsWindow` | archivestore.go:117-157 | the countdown drops assets exactly outside the retention window |
| `Collector.GcWalkRelease` | archivestore.go:110-160 | adds each release up to the first one already marked, and the assets of those inside the window; nothing else |
| `Collector.SettledWalk` | archivestore.go:150-152 | where earlier walks left nothing to do, stopping early loses nothing |
| `Collector.TolerantIsSettled` | archivestore.go:150-152 | that is so when chains are disjoint or untrimmed |
| `Collector.TrimmedHeadKeeps` | README.md:182-194 | under a head trimmed to n: every release object, and assets of exactly the head and n + 1 ancestors |
| `ArchiveStore.ArchiveBlobStore.RunGC` | archivestore.go:162-190 | never removes a release object of any chain, never leaves what no ref keeps, and with chains disjoint or untrimmed leaves exactly what refs keep, in any order of refs and blobs |
| `ArchiveStore.ArchiveBlobStore.MarkAll` | archivestore.go:173-178 | the walks together mark every chain to its root and nothing that no ref keeps; with chains disjoint or untrimmed, all that is kept |
| `ArchiveStore.ArchiveBlobStore.constructor` | archivestore.go:192-194 | the gate starts unlocked and without a request |
| `ArchiveStore.ArchiveBlobStore.DisableGarbageCollector` | archivestore.go:225-230 | one more lock; a sweep only at zero |
| `ArchiveStore.ArchiveBlobStore.EnableGarbageCollector` | archivestore.go:232-237 | one lock less, and a waiting sweep runs when that leaves none |
| `ArchiveStore.ArchiveBlobStore.GarbageCollect` | archivestore.go:219-223 | sweeps at once when unlocked, else leaves the request |
| `ArchiveStore.ArchiveBlobStore.Turn` | archivestore.go:210-213 | the end of the request loop |
| `ArchiveStore.NextRef` | archivestore.go:176-178 | one more walk, from any ref not walked yet, keeps this |
| `ArchiveStore.WalkClosed` | archivestore.go:147-152 | wherever a walk stops early, its chain is marked to the root |
| `ArchiveStore.OrderlyWalk` | archivestore.go:147-152 | with disjoint or untrimmed chains, stopping early misses nothing |
| `ArchiveStore.EarlyStopLosesAssets` | archivestore.go:147-152 | with a shared and trimmed chain it can: the second walk stops at the common parent and misses what only its head keeps |
| `ArchiveStore.EarlyStopExample` | archivestore.go:147-152 | such a pair of heads, and the index that is missed |
| `ArchiveStore.KeepsAfterSweep` | archivestore.go:162-190 | what a ref keeps is the same before and after a sweep |
| `ArchiveStore.SweepOverFields` | archivestore.go:110-190 | a stored blob is left by a sweep iff a release inside some window names it by a field; an index or config iff it is that of one; a release iff it is on a chain |
| `ArchiveStore.SweepIdempotent` | archivestore.go:162-190 | a second sweep removes nothing |
| `Archive.GoodIsIntact` | archivestore.go:90-123 | in a good state the walks miss no object they open unchecked |
| `Archive.GoodIsOrderly` | archivestore.go:501-527 | distributions never share a release |
| `Archive.SettleKeeps` | archivestore.go:210-213 | a sweep keeps a state good |
| `Archive.StoredChild` | release.go:128-131 | a stored child has all its window needs iff what that window reaches of its parent's chain is there |
| `Archive.CoveredIff` | trim.go:43-97 | a new head's window stays inside its parent's iff the trim does not fire or its length lies in the parent's window |
| `Archive.RaisedLengthBreaksTheWalk` | archivestore.go:90-108 | otherwise its window reaches a release whose index may be gone, and the walk would open it |
| `Archive.HeldIff` | archivestore.go:110-145 | what the window of a new head reaches is there iff what the trim brings back into it is |
| `Archive.UnseenIsSwept` | archivestore.go:162-190 | a sweep leaves no index that no window shows |
| `Archive.GrowMarks` | release.go:491-514 | a new head is marked or its chain has no mark, and it is covered if its trim stays inside |
| `Archive.AllowedStaysInside` | trim.go:43-97 | setting only lengths up to the mark of the head keeps every later trim inside |
| `Archive.ConfigMarks` | config_handlers.go:159-184 | a configuration child, which is never trimmed, is covered |
| `ArchiveSteps.RootIsGood` | archivestore.go:501-527 | a fresh root keeps the state good |
| `ArchiveSteps.HeadIsGood` | archive.go:83-88 | setting a stored child as head keeps the state good iff what its window reaches is there |
| `ArchiveSteps.CreateKeeps` | dists_handlers.go:45-88 | creating a distribution keeps the state good |
| `ArchiveSteps.ReconfigureKeeps` | config_handlers.go:49-194 | any configuration change keeps the state good |
| `ArchiveSteps.DeleteKeeps` | archive.go:90-101 | deleting a distribution keeps the state good |
| `ArchiveSteps.MergeKeeps` | archive.go:298-319 | creating the branch and storing the merged index keeps the state good |
| `ArchiveSteps.HeadSetKeeps` | archive.go:363-372 | setting the new head of an upload keeps the state good iff the releases it brings back into the window still have their assets |
| `ArchiveSteps.UploadKeeps` | archive.go:291-379 | a whole upload, sweep included, keeps the state good if a commit brings back only what is held |
| `ArchiveSteps.UploadKeepsIff` | archive.go:291-379 | and inside a session exactly then |
| `ArchiveSteps.InsideIsEnough` | trim.go:43-97 | a trim inside the window brings nothing back |
| `ArchiveSteps.AddUpload` | archive.go:291-379 | on a good state an upload neither fails nor meets a missing object, and does exactly merge, commit decision, new head, request |
| `Runs.StepKeeps` | archivestore.go:192-217 | every enabled step keeps the invariant of archive, gate and sessions |
| `Runs.RunKeeps` | archivestore.go:192-217 | every reachable state has the invariant |
| `Runs.RunIsSafe` | archivestore.go:110-190 | at any point of any run: no walk misses an object, every chain is stored to its root, every release in a window has its index, its config and each blob that one of its fields names |
| `Runs.HeldByName` | archivestore.go:126-145 | a release has its assets iff its index, its config and all its fields name are stored |
| `Runs.RunIsOrderly` | archivestore.go:162-190 | at any point of any run sweeps are exact, and each branch whose merged entries have regular versions is sorted |
| `Runs.RunIsSorted` | releaseindex.go:198-309 | a branch that got only entries with regular versions is sorted, whatever other branches got |
| `RaisedLength.FirstIsMerged` | releaseindex.go:223-305 | under any rules an entry of a new package that comes first is merged, unpruned, and committed |
| `RaisedLength.RaisedLengthRun` | archivestore.go:90-108 | for any rules: a run of three uploads, a sweep, a raised length and a fourth upload, enabled but for the guard, after which the next walk opens an index that is gone |
| `Runs.RunGate` | archivestore.go:192-217 | the lock count is the number of open sessions, no request waits at zero, and session blobs are stored |
| `Runs.ReceivedStays` | upload_session.go:149-158 | what a session has stored stays until that session ends, whatever else happens |
| `Runs.LossOnlyUnlocked` | archivestore.go:210-213 | a step that loses a blob is a sweep with no session open |
| `Runs.RequestSweepsOrWaits` | archivestore.go:206-213 | a request sweeps at once if no session is open, and otherwise is only noted |
| `Runs.SessionEffect` | archivestore.go:198-213 | all that opening, receiving and closing do to the store, the lock and the sessions; closing sweeps iff it is the last and a request waits |
| `Runs.RequestCleared` | archivestore.go:210-213 | a waiting request ends only in the sweep it asked for |
| `Runs.DeferredSweepRuns` | archivestore.go:192-217 | a request made while locked has been served, as the last session closed, by the time none is open |
| `Runs.UploadEffect` | archive.go:291-379 | an upload touches only its branch, which it creates empty if need be; a commit puts the child of `GrowChain` there, with the merged index and the log, and asks for a sweep |
| `Runs.StepContinues` | release.go:128-131 | a step leaves a branch's history a suffix of its new one |
| `Runs.HistoryOnlyGrows` | README.md:169-194 | until a distribution is deleted each release it ever had is on its chain and stored |
| `Runs.AdminEffect` | dists_handlers.go:45-88 | administrative steps touch only the distribution they name, lose no blob and leave the gate alone; all fields of a new distribution, of its root, and of the child a new config makes |
| `HistoryLog.LogCountdown` | log_handlers.go:53-77 | the log's countdown ends exactly where the window does |
| `HistoryLog.PrintLog` | log_handlers.go:43-80 | prints the longest prefix of the chain it may: the head, then releases up to the first outside the window, missing, a root or without a Release file |
| `HistoryLog.LogWithinWindow` | README.md:191-194 | each release the log shows is one whose assets the collector keeps |
| `Governor.EmptyAtUnlock` | governor.go:70-73 | the channel is empty when WriteUnLock looks |
| `Governor.StepKeeps` | governor.go:35-80 | every step of every thread keeps the invariant |
| `Governor.RunKeeps` | governor.go:21-80 | so every reachable state has it, for any number of threads |
| `Governor.TokensConserved` | governor.go:35-80 | tokens in the channel and held add up to Max, and the error of WriteUnLock is unreachable |
| `Governor.WriterIsAlone` | governor.go:53-64 | past WriteLock no other reader or writer is inside; with a limit the writer holds every token |
| `Governor.WriterHoldsReadersOff` | governor.go:35-64 | while a writer is announced in the mutex or inside, no step lets a reader in |
| `Governor.ReadersLimited` | governor.go:19-42 | with a limit at most Max readers are inside |
| `Governor.OnlyTokensBlock` | governor.go:35-80 | with a limit a thread waits only for a token: returned tokens fit and the mutex is free |
| `Governor.MutexIsFree` | governor.go:35-64 | with a limit, whoever comes to the mutex finds nobody in it, or announced, that it would wait for |
| `Governor.StuckIff` | governor.go:35-64 | nobody inside can move iff the channel is empty and everyone inside waits for a token |
| `Governor.StuckNeedsTwoWriters` | governor.go:53-64 | that takes two writers, each with some tokens but not all |
| `Governor.StuckForGood` | governor.go:35-64 | once stuck it stays stuck, and nobody inside ever moves |
| `Governor.FirstWriterGathers` | governor.go:53-59 | a writer can come to hold any number of tokens while another has just entered |
| `Governor.StuckIffLimits` | governor.go:19-64 | it can get stuck iff the limit is at least two and so is the number of threads |
| `Control.LinesOfUnlines` | control.go:94-99 | the scanner gives back the lines that were written |
| `Control.LineEndings` | control.go:94-99 | a carriage return before the newline is dropped, and the last line needs no newline |
| `ControlText.LastLine` | control.go:94-99 | any text that does not end in a newline reads as with one |
| `ControlText.EmptyLineSeparates` | control.go:101-109 | any text: what comes before and after an empty line is parsed on its own, and an empty paragraph before it is dropped |
| `ControlText.EmptyLineAgain` | control.go:101-109 | so a second empty line changes nothing, nor does one at the start |
| `ControlText.SpacesAroundValue` | control.go:117-130 | spaces and tabs around a value change nothing |
| `ControlText.SpacesInContinuation` | control.go:110-116 | nor do they around a continuation, which may start with a tab as with a space |
| `ControlText.FieldAddsValues` | control.go:110-130 | after any text, a field and its continuation lines add their trimmed values, in order, under its name in the last paragraph |
| `ControlText.RefusedIff` | control.go:110-124 | text is refused iff a line that is neither empty nor a continuation has no colon, or a continuation follows no named field of its paragraph |
| `ControlText.TrimMeaning` | control.go:115-128 | trimming cuts the space at both ends and nothing else |
| `ControlText.AsciiSpace` | control.go:115-128 | what counts as space among ASCII |
| `Control.ControlParagraph.SetValue` | control.go:66-69 | the item has just that value, other items keep theirs |
| `Control.ControlParagraph.AddValue` | control.go:72-80 | the value comes last among the item's values |
| `Control.ParseDebianControl` | control.go:85-134 | the line loop over paragraphs that are updated in place computes the parse, errors included |
| `Control.SortedKeys` | control.go:174 | the sorted form of a set of names |
| `Control.AscendingUnique` | control.go:174 | sorting forgets the order in which names came |
| `Control.SortStrings` | control.go:174 | sorts distinct names |
| `Control.WriteField` | control.go:158-162 | writes a field and its continuation lines |
| `Control.WriteListed` | control.go:154-164 | writes the listed fields that are present |
| `Control.WriteParagraph` | control.go:140-198 | the text does not depend on how the map is iterated |
| `Control.WriteDebianControl` | control.go:139-205 | writes all paragraphs, with an empty line between any two |
| `ControlPrint.FieldByLine` | control.go:158-162 | a field is a line with its name and first value and a line with a space for each further value |
| `ControlPrint.StartFirst` | control.go:154-164 | the first field of the start list is printed before all else |
| `ControlPrint.EndLast` | control.go:187-197 | the last field of the end list is printed last |
| `ControlPrint.SmallestFirst` | control.go:166-185 | the others are printed with the smallest name first |
| `ControlPrint.OneLineBetween` | control.go:199-203 | exactly one empty line stands between paragraphs |
| `ControlRoundTrip.ParseOfPrinted` | control.go:85-205 | reading what was printed gives the paragraphs back iff no field is listed twice in start and end together |
| `ControlRoundTrip.PrintedIsPlain` | control.go:208-226 | printed text does not go to the OpenPGP library unless its first paragraph has a field named with a dash |
| `ControlRoundTrip.EncodeParagraph` | archivestore.go:357-379 | the arrays filled from a map iterated in any order are the canonical ones |
| `ControlRoundTrip.CollectKeys` | archivestore.go:361-366 | the keys come out sorted, whatever the order of iteration |
| `ControlRoundTrip.EncodingListsFields` | archivestore.go:357-379 | the encoding lists the names in ascending order, each with its values |
| `ControlRoundTrip.DecodeParagraph` | archivestore.go:340-349 | the loops over keys and values rebuild the paragraph |
| `ControlRoundTrip.DecodeOfEncode` | archivestore.go:303-379 | decoding gives the paragraph again iff each field has a value |
| `ControlRoundTrip.DecodeListed` | archivestore.go:340-349 | a stored key comes back iff it has a value, and with all its values |
| `ControlRoundTrip.EncodeInjective` | archivestore.go:303-309 | two paragraphs have one encoding iff they are equal |
| `ControlRoundTrip.AddControlFile` | archivestore.go:354-386 | all paragraphs are encoded, the flags and signers kept |
| `ControlRoundTrip.GetControlFile` | archivestore.go:319-352 | all paragraphs are decoded, the flags and signers kept |
| `ControlRoundTrip.StoredFileReadsBack` | archivestore.go:319-386 | storing and reading back is the identity iff each field has a value |
| `ControlRoundTrip.EncodeFileInjective` | archivestore.go:303-309 | equal files, and only they, share an id |
| `Changes.FieldHashes` | changes.go:47-72 | one digest table, or an error |
| `Changes.RowsMeaning` | changes.go:53-69 | there is a table iff every row is well formed; it lists the files of the rows, each with the digest of its last row |
| `Changes.RowMeaning` | changes.go:54-69 | a row has three or five columns and a digest in hex; the first column is the digest, the second the size, the last the name |
| `Changes.Agrees` | changes.go:83-91 | the count check and the loop accept iff the two tables list the same files |
| `Changes.GatherDigests` | changes.go:107-117 | the last loop joins the three digests of each file |
| `Changes.ChangesFileHashes` | changes.go:46-120 | three loops over the tables, the checks and the join compute `HashesOf`, which `HashesIff` and `HashesOverColumns` say in columns |
| `Changes.HashesIff` | changes.go:46-120 | accepted iff every line after the first of each table has three or five columns and a digest in hex, and the three tables list the same files |
| `Changes.HashesOverColumns` | changes.go:46-120 | a file has hashes iff a line of Files has its name last and its size second; each hash is the first column of the last such line of its table |
| `Session.UploadSession.constructor` | upload_session.go:127-130 | a session expects the files listed and has received none |
| `Session.OpenedAwaits` | upload_session.go:127-130 | one file is awaited for each name listed, of which only the name is known |
| `Session.UploadSession.FindKey` | upload_session.go:235-245 | finds a listed entry of that name iff there is one |
| `Session.UploadSession.DoAddFile` | upload_session.go:221-389 | accepts or refuses one file: which error in which order, and what changes even on an error |
| `Session.UploadSession.DoReadContents` | upload_session.go:275-364 | what a .deb or .dsc leaves in its entry: package, control id, signers |
| `Basics.SuffixMeaning` | upload_session.go:275 | a name has a suffix iff it ends in it |
| `Session.UploadSession.HandleIncoming` | upload_session.go:168-191 | one message: add, then merge iff all has been received |
| `Session.AddFileChanges` | upload_session.go:221-389 | only the file sent changes, and never one already received |
| `Session.AcceptedIff` | upload_session.go:221-389 | a file is accepted iff it is expected, not yet received, listed and stored, its contents are readable and its control data stored, it is verified where that is asked of a .deb, all three listed digests are its own, and it is linked |
| `Session.RefusedBecause` | upload_session.go:221-376 | each refusal has the reason it gives |
| `Session.RecordOf` | upload_session.go:296-388 | what is on record of an accepted file, field by field; a refused one leaves no bytes, size or hook result |
| `Session.AddFileIDs` | upload_session.go:247-389 | which ids can come into its entry |
| `Session.HookDecidesNothing` | upload_session.go:378-388 | whatever the upload hook does, the outcome is the same, but for the result on record |
| `Session.HandleKeeps` | upload_session.go:168-191 | each message keeps the session's invariant and every received file |
| `Session.RunKeeps` | upload_session.go:149-194 | so does any sequence of messages |
| `Session.MergedOnce` | upload_session.go:149-194 | a merge is asked for at most once, iff every expected file is in, and each then has the md5, sha1 and sha256 listed for its name |
| `Session.ReceivedStays` | upload_session.go:226-233 | a received file is never replaced |
| `Server.HandleAccounted` | upload_session.go:247-389 | after any message, accepted or not, all ids in the entries of a handler are of blobs it has stored |
| `Server.FinishedHasReaders` | upload_session.go:275-285 | a finished handler has read each .deb, as NewReleaseIndexEntry needs |
| `Server.EntryAccounted` | releaseindex.go:48-115 | the entry made of a handler's files needs only what the handler has stored |
| `Server.MergeIsEnabled` | upload_session.go:168-191 | when the last file has come in, that entry may be merged |
| `Server.ServerRefines` | upload_session.go:149-194 | every run of handlers and administrators is a run of `Runs` |
| `Server.AcceptedFilesStay` | upload_session.go:149-158 | while a handler runs, bytes and control data of the files it has accepted are in the store |

## Left out

- Integer widths: trim marks (int32), counters and limits are unbounded; only the epoch's 64 bits are modelled, in `VersionText`.
- The text of prune rules and pool patterns and the matching of regular expressions: a rule matches a name by a parameter.
- OpenPGP: signatures, keys and the clearsigned form of a control file; a verdict is a boolean parameter.
- Files, hard links, gob and gzip, the pool layout and rewriting the public directory (`ReifyRelease`, `updatePool`): objects are values.
- The Packages, Sources and Release files a release generates: their ids are parameters of the steps.
- HTTP, JSON, cookies, the command line, running hooks and log rotation; a hook's result is a parameter.
- Time: session expiry is the step that closes a session, dates are parameters; the time trimmer, which never trims, is left out.
- The decimal version string a child release counts up (release.go:133-137).
- Sessions for a lone .deb, which expect one file and make their own changes file.
- References that are not heads, and distribution names with a slash, which `SetDist` refuses.
- Configurations with keys as the start-up default: the server builds its default without keys (server_cli.go:64-73), and `Archive.Env.Usable` says so.
- Steps of `Runs` are atomic. The gate does not cover a configuration handler, nor a session between storing its changes file and holding the collector off, so nothing is claimed of a sweep in the middle of those.
- I/O failures of the store; `GetRelease` fails here only on an object that is missing.
- The limit on line length in the scanner; a scan error would end parsing as if the text ended there.
- Characters: a `char` is a byte in names and versions and a code point in control text; ill-formed UTF-8 is not modelled.
- `strings.Fields`, `hex.DecodeString` and `strconv.ParseInt` as used for changes files are parameters; the other fields of a changes file are not read.
- The order in which a Go RWMutex lets waiting threads in when a writer leaves: a waiting writer does hold off later readers here, but on its leaving anyone may be next. The steps allow all that Go does and more, so the safety results carry over, and so does that below two the governor never gets stuck; the run that gets stuck does not reach the mutex.
- The set of marks and the paragraphs under construction are passed and returned as values where the program shares one map; the blob store, the pruner, the trimmer, the draft release, the paragraph and the session are objects updated in place.
- ArchiveStore.ArchiveBlobStore.RunGC: exact only for orderly references, which every reachable state has (Runs.RunIsOrderly); with shared and trimmed chains assets can be missed (ArchiveStore.EarlyStopLosesAssets).
- ArchiveStore.ArchiveBlobStore.EnableGarbageCollector: asks for a positive count, where the program panics at a negative one; Runs.RunGate shows the count is never negative.
- Collector.GcWalkRelease: asks that the releases and indexes it opens are there, since the program goes on with what a failed open returns; Runs.RunIsSafe shows they always are.
- ReleaseEntry.NewReleaseIndexEntry: asks that each .deb has its package reader, which a finished session provides (Server.FinishedHasReaders).
- Prune.Pruner.Prune: asks that no nil rule is dereferenced (Retention.PanicsIffUncovered).
- ControlPrint.StartFirst: asks that the field is listed once in start and end together; one listed twice is printed twice.
- ControlPrint.EndLast: asks the same.
- Control.WriteDebianControl: asks that every field has a value, where the program indexes the first one and would panic.
- Control.ParseDebianControl: asks that the text does not begin like a clearsigned message, which the program hands to the OpenPGP library first. ControlRoundTrip.ParseOfPrinted is about the parser itself; ControlRoundTrip.PrintedIsPlain says when printed text gets there as it stands.
- Changes.ChangesFileHashes: asks the same of the three tables, whose first line is cut off.
- ControlRoundTrip.GetControlFile: asks for as many value lists as keys, as every stored file has.
- Retention.KeptIffRetained: asks for a grouped index, without which it fails (Retention.RanksIffGrouped).
- VersionOrder.ComparisonIsKeyOrder: asks for regular strings, because any other breaks the order (VersionOrder.RegularIffTiesAgree).
- Merge.MergeEntryIntoRelease: asks that no package without a rule is met twice, where the program would dereference nil (Retention.PanicsIffUncovered).
