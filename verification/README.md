# Verification of aibris

aibris decides which files may be deleted, deletes them, and accounts for every byte. This project models that logic
in Dafny and proves what it promises. `dafny verify dfyconfig.toml` verifies all of it.

The parts, each building on the ones before it:

- **Recorded working directories** (`Json*`, `Cwd*`, `RecordedCwd*`). A byte-at-a-time recogniser of JSON records, as a
  class with the extractor's own fields, is proved to be a pushdown machine, and that machine to accept exactly the
  objects of RFC 8259 (sections 2 to 7, without a UTF-8 check) with at most one top-level `cwd` key. `CwdReading` says
  what any text, whole, broken or cut short, contributes. The result is carried through the file reader and the absence
  proof to the class "orphaned".
- **The deletion gate** (`SafeDelete*`). A tree with links, the resolver, the gate, what a removal it allows can and
  cannot take away, and three trees on which it takes more than the package says.
- **Targets and scan roots** (`Ordering`, `PathKeys`, `CleanupTargets`, `CleanupTargetTheorems`, `OwnerSafety`,
  `ScanRoots`). Collapsing rows to the outermost canonical paths, in two different orders.
- **The cleanup plan** (`CleanupPlan*`, `CleanupComponents`, `CleanupReview`). Owners, locks, bytes on rows, and
  toggling.
- **The snapshot** (`SnapshotForest`, `ByteAccounting*`, `Snapshot*`). Dividing bytes over a containment forest, and
  merging three sources of evidence, each row onto the component it belongs to.
- **Execution and receipts** (`Execution`, `Receipts`, `GuidedReceipts`, `Receipt*`, `MutationBarrier`, `RefreshMemo`,
  `EntryFingerprint`). Protocols over arbitrary answers, cancellations and failures.
- **Dispatch and activity** (`Dispatch`, `ScanAggregate`, `ActivityIndex`). Interleaved goroutines, and indexes that
  must agree.

Conventions: a byte is a `char`; a path is the sequence of its names from the root; integers are unbounded; a sort is
a stable insertion sort; a map is visited in an arbitrary order. What the disk, the clock, a child process, a prompt or
a provider answers is a parameter (a datatype of functions such as `World`, `Disk` or `Surroundings`) about which
nothing is assumed beyond what a contract states.

Where the code and its own documentation differ, the model follows the code:

- The package states its rules for the lexical and the canonical path (`internal/safedelete/safedelete.go:10-15`);
  whether a path is inside the home is decided by the canonical path alone
  (`internal/safedelete/safedelete.go:284-308`), and a link's own place is not looked at for Git metadata either
  (`internal/safedelete/safedelete.go:144-160`). `RemovalInsideHome` and `RemovalSparesRepositories` state exactly when
  the removed entry lies inside the home and in Git metadata; `LinkOutsideHomePasses` and `LinkInGitMetadataPasses` give
  a link outside the home and one inside `.git` that pass.
- The gate protects a location's own entry as well as where it leads (`internal/safedelete/safedelete.go:107-108`).
  For a relocated home spelled with dots, which is used as it is spelled
  (`internal/safedelete/safedelete.go:238-247`), it looks at the cleaned parent, where the entry need not be.
  `ProtectedSurvives` states exactly when the entry is taken away, and `DottedEntryIsLost` gives a tree on which it is.
- `NormalizeTargets` says that an owner with active and orphaned rows stays active
  (`internal/cleaner/targets.go:127-138`). A row of another category chosen in between loses the activity:
  `ActivityKept` states exactly for which rows it is kept, `ActivityLost` gives three rows for which it is not, and
  `SafetyKeepsActivity` shows that the filter applied before it on the cleaning route closes the gap.
- The entry fingerprint is said to be injective in the entry set (`internal/cleaner/overlap_runtime.go:126-135`); an
  absent root and one whose only entry is named `<absent>` are the one exception, as `FingerprintIsExact` states.
- A hard lock is said to dominate its component in either direction
  (`internal/cleaner/unified_cleanup_plan.go:157-159`). An unselected owner above a locked target is not part of its
  component and can be toggled on; `ToggledPlanIsClear` states exactly which toggles put a selection above a lock, and
  `ToggledPlanIsAntichain` which put one above another selection.
- The mutation barrier revalidates the planned obligations (`internal/cleaner/overlap_mutation.go:23-31`). One that the
  refreshed plan finds again is replaced by what was found, its recorded identity with it
  (`internal/cleaner/overlap_mutation_helpers.go:146-159`): `PlannedIdentityChecked` states exactly which planned
  identities are checked, and `ReplacedIdentityPasses` gives a replaced one that has changed.

## Model

| member | source | states |
|---|---|---|
| CwdExtractor.CwdMetadataExtractor.Feed | internal/adapter/claude_cwd_json_extractor.go:3-132 | feeding a fragment takes the extractor to the pushdown machine's state after those bytes and returns the first usable cwd in them; the loop ends although a number's last byte is offered twice |
| CwdExtractor.CwdMetadataExtractor.FeedOnce | internal/adapter/claude_cwd_json_extractor.go:5-130 | one turn is one step of the machine, or leaves a finished number for which the same byte gives the same step |
| CwdExtractor.CwdMetadataExtractor.FeedStringByte | internal/adapter/claude_cwd_json_extractor_helpers.go:61-142 | one byte of a key or value with escapes, surrogates, key matching and retention moves the abstract string state exactly as the machine does |
| CwdExtractor.CwdMetadataExtractor.FeedNumberByte | internal/adapter/claude_cwd_json_extractor_helpers.go:175-240 | the number automaton: which bytes continue, end or break a number |
| CwdExtractor.CwdMetadataExtractor.UnverifiableRecord | internal/adapter/claude_cwd_json.go:136-141 | a record with content is unverifiable when broken, incomplete, or its cwd key gave no usable directory |
| CwdMachine.RunConcat | internal/adapter/claude_cwd_json_extractor.go:3-132 | for every split of a record into fragments the final state and the first cwd are the same |
| JsonCompleteness.RunDocument | internal/adapter/claude_cwd_json_extractor.go:3-132 | on every record of the grammar, at any nesting depth, the run ends in the verdict its syntax tree calls for, with the value of the top-level cwd key (however its key is escaped) and never a nested or non-key one |
| JsonSoundness.AcceptedIsRecord | internal/adapter/claude_cwd_json_extractor.go:3-132 | every text on which the run ends complete is whitespace, one object of RFC 8259, whitespace |
| JsonSoundness.RunGrows | internal/adapter/claude_cwd_json_extractor.go:3-132 | while the run is not broken, the bytes so far are spelled by a partial syntax tree that fits the container stack, string, escape and number state |
| JsonTheorems.AcceptsExactly | internal/adapter/claude_cwd_json_extractor.go:3-132 | the run ends complete if and only if the text is a record of the grammar with at most one top-level cwd key |
| JsonTheorems.TreesAgree | internal/adapter/claude_cwd_json_extractor_helpers.go:61-142 | the recorded directory and whether the cwd key is missing, single or repeated do not depend on the syntax tree chosen |
| JsonTheorems.UnverifiableExactly | internal/adapter/claude_cwd_json.go:136-141 | a record counts as unreadable if and only if it is not blank and is not a readable record |
| JsonTheorems.BrokenForever | internal/adapter/claude_cwd_json_extractor.go:5-8 | a broken record stays broken whatever follows |
| JsonTheorems.RejectsEarliest | internal/adapter/claude_cwd_json_extractor.go:3-132 | the run is broken after a prefix if and only if no continuation is an acceptable record |
| JsonTheorems.CwdIsSpelled | internal/adapter/claude_cwd_json_extractor_helpers.go:61-142 | a key is the cwd key if and only if its three characters stand for c, w and d, each as itself or escaped |
| JsonTheorems.LongDirectories | internal/adapter/claude_cwd_json_extractor_helpers.go:61-142 | a value longer than the limit records no directory, and any other records what its text decodes to |
| JsonTheorems.NumberForms | internal/adapter/claude_cwd_json_extractor_helpers.go:175-240 | the grammar holds numbers with sign, fraction and exponent, none with a leading zero, an empty fraction or an empty exponent |
| JsonBytes.HexDigitsCount | internal/adapter/claude_cwd_json_extractor_helpers.go:61-142 | a hexadecimal digit counts as its place in 0 to 9 and, in either case, a to f |
| JsonBytes.ClassesAreListed | internal/adapter/claude_cwd_json_extractor.go:3-132 | whitespace and the short escapes are exactly the characters listed |
| RecordedCwd.ReadRecordedCwds | internal/adapter/claude_cwd_json.go:22-73 | for every fragmentation, read error, end of file and cancellation the result is the summary of exactly the whole records consumed; what a summary holds is stated by the rows below |
| RecordedCwdTheorems.CountsUnreadable | internal/adapter/claude_cwd_json.go:34-47 | the summary counts exactly the non-blank records that are not readable |
| RecordedCwdTheorems.KeepsDirectories | internal/adapter/claude_cwd_json.go:34-47 | the directory a readable record records is among the results |
| RecordedCwdTheorems.OnlyDirectories | internal/adapter/claude_cwd_json.go:34-47 | when no record is unreadable, every directory reported comes from a record that records it |
| CwdReading.CwdExactly | internal/adapter/claude_cwd_json.go:34-47 | what the run gives as first directory after any text, broken or cut short, is that of the first finished top-level value under a cwd key that decodes to a usable directory |
| CwdReading.AmbiguousExactly | internal/adapter/claude_cwd_json.go:34-47 | the run is ambiguous after any text if and only if the text has got through a second top-level cwd key |
| RecordedCwdTheorems.DirectoriesExactly | internal/adapter/claude_cwd_json.go:34-47 | for every file the directories reported are, in order, the first usable cwd of each record that has no second top-level cwd key, broken and truncated records included |
| RecordedCwdTheorems.DoubledRecordsAreIgnored | internal/adapter/claude_cwd_json.go:34-47 | a valid record with two or more cwd keys adds no directory and counts as unreadable |
| RecordedCwdTheorems.FirstUnreadableLine | internal/adapter/claude_cwd_json.go:34-47 | the line reported is that of the first unreadable record, and zero if and only if there is none |
| RecordedCwdTheorems.RecordsAreLines | internal/adapter/claude_cwd_json.go:48-70 | the records of a text are its lines: joined they are the text, and only the last is without a newline, which ends each other |
| RecordedCwdClassifier.AbsenceProven | internal/adapter/recorded_cwd.go:153-214 | a directory is proven absent if and only if its nearest existing ancestor vouches for it (a directory, on its parent's volume, in a plausible container) and it is still absent afterwards |
| RecordedCwdClassifier.AnyDoubtPrevents | internal/adapter/recorded_cwd.go:153-214 | an ancestor that is no directory, a link leading to none, another volume, an implausible container or a reappearance each prevents the proof |
| RecordedCwdClassifier.PlainAbsence | internal/adapter/recorded_cwd.go:153-214 | on a plain disk of one volume a directory is proven absent if and only if it is absent |
| RecordedCwdClassifier.FindingsAre | internal/adapter/recorded_cwd.go:52-144 | a directory exists, is gone or is unverifiable by what looking at it gives and whether its absence is proven |
| RecordedCwdClassifier.Classify | internal/adapter/recorded_cwd.go:52-144 | orphaned if and only if some cwd was recorded, every one is proven absent, and nothing is unverifiable; live if and only if one exists |
| RecordedCwdClassifier.Gather | internal/adapter/claude_projects.go:115-153 | the evidence is free of doubt if and only if every session file can be read whole and has no unreadable record, and then holds exactly the directories of all files |
| RecordedCwdClassifier.OrphanedMeans | internal/adapter/recorded_cwd.go:52-144 | evidence classified orphaned means that every non-blank record of every file is a valid object whose cwd, if any, is usable and gone |
| RecordedCwdClassifier.EvidenceSuffices | internal/adapter/recorded_cwd.go:52-144 | conversely, when every non-blank record is such an object and every directory recorded, of which there is one, is gone, the evidence is certain and calls for orphaned |
| RecordedCwdClassifier.ClassifyEntry | internal/adapter/claude_projects.go:111-113 | from the bytes of the session files to the class: orphaned if and only if the files hold that evidence |
| SafeDeletePaths.Canonicalize | internal/safedelete/safedelete.go:310-370 | the worklist resolver, which terminates by remaining links and pending parts, computes the recursive resolution |
| SafeDeletePaths.ResolveSettles | internal/safedelete/safedelete.go:310-370 | a resolved path is clean and no place on the way to it is a link |
| SafeDeletePaths.CanonicalIsIdempotent | internal/safedelete/safedelete.go:310-370 | on an unchanged tree a resolved path resolves to itself |
| SafeDeletePaths.CanonicalThroughParent | internal/safedelete/safedelete.go:310-370 | resolving a path is resolving its resolved parent joined with its last name |
| SafeDeletePaths.ResolveWithFewerLinks | internal/safedelete/safedelete.go:310-370 | a resolution that succeeds also succeeds, alike, with more of the link budget left |
| SafeDeletePaths.LinkLeads | internal/safedelete/safedelete.go:310-370 | a link leads where its target leads, taken from the link's own directory unless it is absolute |
| SafeDeletePaths.PlacesLead | internal/safedelete/safedelete.go:310-370 | an unreadable place and anything below a file resolve to nothing; directories and missing places lead on |
| SafeDeleteTheorems.LexicalWithoutLinks | internal/safedelete/safedelete.go:310-370 | without links a path resolves to its lexical cleaning |
| SafeDeleteTheorems.LinksAreLimited | internal/safedelete/safedelete.go:353-357 | a chain of 255 links resolves and one of 256 does not |
| SafeDeleteGate.Check | internal/safedelete/safedelete.go:81-160 | the gate allows a path if and only if it is clean, resolves strictly inside the home, covers no form of any of the home locations named in the table and of any relocated home, and is no container, repository or Git metadata; a refusal names a reason that is so |
| SafeDeleteGate.TablesAreExact | internal/safedelete/safedelete.go:42-80 | the protected table holds exactly the listed names at the top of the home, below Library and in the agent homes, no more and no fewer |
| SafeDeleteGate.CheckLocation | internal/safedelete/safedelete.go:104-133 | a location is spared if and only if its lexical, physical and resolved forms exist and neither spelling of the target is at or above one |
| SafeDeleteTheorems.RemovalPlaceIsCanonical | internal/safedelete/safedelete.go:251-258 | the entry removed sits in the resolved parent and is the resolved path itself or a link leading to it |
| SafeDeleteTheorems.ProtectedSurvives | internal/safedelete/safedelete.go:81-160 | for every tree with links, every listed location below the home and every relocated home, however spelled, an allowed removal leaves alone where it leads and all above that; it takes the location's own entry away if and only if a directory is removed at or above the one the entry is in, and never for a location spelled without dots |
| SafeDeleteTheorems.PermittedIsApart | internal/safedelete/safedelete.go:104-138 | an allowed path, as spelled and as resolved, is neither at nor above any form of a protected location, nor the same file as one |
| SafeDeleteTheorems.PermittedIsOrdinary | internal/safedelete/safedelete.go:81-160 | an allowed path is absolute, clean, strictly inside the home, no worktree container, no repository and in no Git metadata |
| SafeDeleteTheorems.PlainTreesExactly | internal/safedelete/safedelete.go:81-160 | on a tree without links the gate allows exactly the absolute clean paths strictly below the home that are at or above no listed or relocated location and are none of the other kinds |
| SafeDeleteTheorems.EntryExactly | internal/safedelete/safedelete.go:104-133 | the removed place is at or above a spared location's own entry if and only if it is no link and the removed path leads to the entry's directory or above it |
| SafeDeleteTheorems.EntrySpared | internal/safedelete/safedelete.go:104-133 | a location whose parent leads where its cleaned parent leads never loses its own entry |
| SafeDeleteTheorems.RemovalInsideHome | internal/safedelete/safedelete.go:284-308 | what is removed lies strictly inside the home, except that a removed link does exactly when the directory holding it does |
| SafeDeleteTheorems.RemovalSparesRepositories | internal/safedelete/safedelete.go:144-160 | what is removed is no primary repository and lies in no Git metadata, except that a removed link does exactly when the directory holding it does |
| SafeDeleteTheorems.Disk.RemoveAll | internal/safedelete/safedelete.go:251-258 | removes exactly what the path names when the gate allows it and changes nothing otherwise; every listed location below the home (.ssh, Documents, .claude/projects and the rest) and every relocated home keeps its referent, and its own entry exactly unless endangered |
| SafeDeleteExamples.LinkOutsideHomePasses | internal/safedelete/safedelete.go:284-308 | a concrete tree in which a link outside the home passes the gate and is removed |
| SafeDeleteExamples.LinkInGitMetadataPasses | internal/safedelete/safedelete.go:144-160 | a concrete tree in which a link inside Git metadata, reached through another link, passes the gate and is removed |
| SafeDeleteExamples.DottedEntryIsLost | internal/safedelete/safedelete.go:104-133 | a concrete tree and relocated home with its store in which a directory passes the gate and the home's own entry is removed with it |
| CleanupTargets.GroupByPath | internal/cleaner/targets.go:101-143 | one pass merges all rows of a canonical path: preferred row, kept activity, largest size for each raw path, first index |
| CleanupTargets.KeepOutermost | internal/cleaner/targets.go:145-170 | scanning by depth keeps exactly the candidates that lie below no other |
| CleanupTargets.NormalizeTargets | internal/cleaner/targets.go:101-183 | the result is the merged item of each outermost canonical path, in order of first sight |
| CleanupTargetTheorems.NormalizationCovers | internal/cleaner/targets.go:101-183 | no result contains another and every input path is at or below one |
| CleanupTargetTheorems.RowIsCovered | internal/cleaner/targets.go:101-183 | every row with a canonical path has a result at or above it |
| CleanupTargetTheorems.NormalizedHasRow | internal/cleaner/targets.go:101-183 | every result stands at the path of some row |
| CleanupTargetTheorems.OrderOfFirstSight | internal/cleaner/targets.go:171-183 | results stand in the order in which their paths were first seen |
| CleanupTargetTheorems.PreferenceIsByTier | internal/cleaner/targets.go:201-251 | a row is preferred by link, raw path and rank, and then by stable key |
| CleanupTargetTheorems.PreferenceClauses | internal/cleaner/targets.go:201-237 | what stands at the path itself and is no link comes first, then worktrees, then rows whose path is removed |
| CleanupTargetTheorems.MergePrefers | internal/cleaner/targets.go:120-138 | a further row takes the place of the one kept if and only if it is preferred to it |
| CleanupTargetTheorems.NormalizationIsUnique | internal/cleaner/targets.go:101-183 | the rows have one normalization, however the map was visited |
| CleanupTargetTheorems.NormalizationIsIdempotent | internal/cleaner/targets.go:101-183 | normalizing the result changes nothing |
| CleanupTargetTheorems.SizesAreLargest | internal/cleaner/targets.go:108-138 | the size kept for each raw path is the largest of its rows' |
| CleanupTargetTheorems.NormalizedSize | internal/cleaner/targets.go:108-138 | each item has the largest size among the rows sharing its canonical and raw path |
| CleanupTargetTheorems.ActivityKept | internal/cleaner/targets.go:127-138 | the kept item is an active worktree if and only if some row is one and, from it on, after each row a worktree was among the best ranked rows of the path so far |
| CleanupTargetTheorems.WorktreeLeadsExactly | internal/cleaner/targets.go:201-237 | after any number of rows a worktree is kept if and only if one is ranked no later than all others, by link, raw path and rank alone |
| CleanupTargetTheorems.ActivityKeptAmongWorktrees | internal/cleaner/targets.go:127-138 | among worktree rows only, activity is never lost |
| CleanupTargetTheorems.ActivityLost | internal/cleaner/targets.go:127-138 | three concrete rows whose active status is lost, against the comment that a mixed owner stays active |
| OwnerSafety.ApplyPhysicalOwnerSafety | internal/cleaner/targets.go:28-76 | worktree targets at an owner with an active row are dropped, or forced active when active ones are included; a key is protected if and only if active ones are not included and it is that of a worktree row at such an owner |
| OwnerSafety.SafeMeans | internal/cleaner/targets.go:28-76 | targets are judged one by one: a worktree whose path some active worktree row has is dropped or made active, any other target stays as it is |
| OwnerSafety.SafetyKeepsActivity | internal/cleaner/targets.go:28-76 | after that filter normalization cannot lose activity: a worktree surviving at such an owner is active, and only if active ones are included |
| ScanRoots.NormalizeRoots | internal/scanner/roots.go:13-56 | succeeds if and only if every root is usable, and then returns the outermost ones, each once, by spelling |
| ScanRoots.UsableMeans | internal/scanner/roots.go:58-95 | a root is usable if and only if it resolves to a directory at or below the home, or to the temporary directory |
| ScanRoots.RootIsCovered | internal/scanner/roots.go:39-54 | every usable root is one of the results or lies below one |
| ScanRoots.ScansAgree | internal/scanner/roots.go:39-54 | the scan in spelling order keeps the same paths as the scan by depth |
| CleanupPlan.OwnerIsOutermost | internal/cleaner/unified_cleanup_plan_helpers.go:31-56 | a target's owner is its outermost selected or locked ancestor, or itself |
| CleanupPlan.OwnerIsUnique | internal/cleaner/unified_cleanup_plan_helpers.go:31-56 | no other path is that |
| CleanupPlan.OwnerIsFixed | internal/cleaner/unified_cleanup_plan_helpers.go:31-56 | owners own themselves |
| CleanupPlan.ComponentSelection | internal/cleaner/unified_cleanup_plan_helpers.go:56-69 | a component is locked when some member is, else selected when some member is |
| CleanupPlan.OwnerTargetIsSelf | internal/cleaner/unified_cleanup_plan_helpers.go:56-66 | a component's owner target and bytes are those of the target at its key |
| CleanupComponents.AssignOwners | internal/cleaner/unified_cleanup_plan_helpers.go:31-69 | the loop over targets by depth writes that owner into each target and builds that owner's component |
| CleanupComponents.IndexRows | internal/cleaner/unified_cleanup_plan_helpers.go:71-85 | rows are grouped by owner and each owner gets the first row that represents it |
| CleanupComponents.BuildPhysicalComponents | internal/cleaner/unified_cleanup_plan_helpers.go:10-136 | in place, every target gets its owner and selection and every row its owner, relation, bytes and reasons; one component for each owner |
| CleanupPlanBuilder.CollectGroups | internal/cleaner/unified_cleanup_plan.go:170-204 | all candidates are accepted if and only if selections and paths are valid and the row keys, given or generated, are distinct; otherwise the first problem is reported |
| CleanupPlanBuilder.AggregateSelection | internal/cleaner/unified_cleanup_plan_helpers.go:229-240 | locked when some row is, unselected when all are |
| CleanupPlanTheorems.SelectionsAreNamed | internal/cleaner/unified_cleanup_plan_helpers.go:220-227 | a text is a selection if and only if it is one of the three words, and each word its own |
| CleanupPlanBuilder.GeneratedKeysDiffer | internal/cleaner/unified_cleanup_plan.go:184-192 | generated row keys are never shared |
| CleanupPlanBuilder.FirstGeneratedKey | internal/cleaner/unified_cleanup_plan.go:184-192 | the first candidate of its stable key gets that key with number one |
| CleanupPlanBuilder.FindRepresentative | internal/cleaner/unified_cleanup_plan_helpers.go:242-265 | the item is that of a best ranked row, active if and only if it is a worktree and some row is an active one, with the largest size of the rows sharing its raw path |
| CleanupPlanBuilder.BuildUnifiedCleanupPlan | internal/cleaner/unified_cleanup_plan.go:160-252 | the plan is the fresh one of one target per canonical path and one row per candidate, or the first problem |
| CleanupPlanBuilder.RepresentativeIsBest | internal/cleaner/unified_cleanup_plan_helpers.go:242-265 | the representative is one of the rows and none is preferred to it; its activity is that of any row |
| CleanupPlanTheorems.PlannedTargets | internal/cleaner/unified_cleanup_plan.go:207-242 | every target of a built plan stands for the candidates at its path: a best ranked item, active exactly when it is a worktree and some candidate is active, the largest size for its raw path, locked when some candidate is and else selected when some is |
| CleanupPlanTheorems.OwnerExactly | internal/cleaner/unified_cleanup_plan_helpers.go:31-56 | a path is a target's owner if and only if it is the target's own or a claiming target's above it and no claiming target lies above it |
| CleanupPlanTheorems.FreshTargets | internal/cleaner/unified_cleanup_plan_helpers.go:31-69 | each target of a fresh plan has its owner, and is locked when a target of that owner is, else selected when one is |
| CleanupPlanTheorems.CandidateOrder | internal/cleaner/unified_cleanup_plan_helpers.go:267-273 | candidates are taken in by row key, and for equal ones by item and selection |
| CleanupPlanTheorems.RowOrder | internal/cleaner/unified_cleanup_plan_helpers.go:275-282 | rows are shown by owner and then by path |
| CleanupPlanTheorems.FreshSelectionIsClear | internal/cleaner/unified_cleanup_plan_helpers.go:31-69 | in a fresh plan no selected component contains another, and none equals, contains or lies inside a locked target |
| CleanupPlanTheorems.LocksDominate | internal/cleaner/unified_cleanup_plan.go:157-159 | a locked target locks everything below it and every claiming target at or above it |
| CleanupPlanTheorems.SelectedPhysicalTargets | internal/cleaner/unified_cleanup_plan_helpers.go:176-186 | returns exactly the owners of the selected components, in order |
| CleanupPlanTheorems.FreshSelectionIsNormal | internal/cleaner/unified_cleanup_plan_helpers.go:176-186 | normalizing a fresh plan's execution targets changes nothing |
| CleanupPlanBytes.EveryCandidateIsShown | internal/cleaner/unified_cleanup_plan.go:212-242 | every candidate has a row and every row a candidate |
| CleanupPlanBytes.BuiltRowsMatch | internal/cleaner/unified_cleanup_plan.go:160-252 | a built plan's rows have distinct keys, a target each, and every target a row |
| CleanupPlanBytes.BytesAreConserved | internal/cleaner/unified_cleanup_plan_helpers.go:71-130 | the bytes on the rows of each component sum to its owner's size, and all rows to all components |
| CleanupPlanBytes.RowsAreRelated | internal/cleaner/unified_cleanup_plan_helpers.go:90-130 | a shown row stands at its owner's path or below it, as its relation says; only the owner row carries bytes, the owner's size; and it gains a reason only when its component is locked by another row |
| CleanupPlanBytes.FirstMatchMeans | internal/cleaner/unified_cleanup_plan_helpers.go:71-85 | the row that shows a target's bytes is the first at its path whose item has the target's stable key |
| CleanupPlanBytes.ComponentsList | internal/cleaner/unified_cleanup_plan_helpers.go:31-69 | a component lists exactly the keys and row keys of the targets of its owner |
| CleanupPlanBytes.ComponentCounts | internal/cleaner/unified_cleanup_plan_helpers.go:188-218 | each component counts with its owner's size under its own selection |
| CleanupPlanBytes.ComponentSums | internal/cleaner/unified_cleanup_plan_helpers.go:188-218 | bytes and targets add up over components |
| CleanupPlanBytes.LockReasonIsRight | internal/cleaner/unified_cleanup_plan_helpers.go:115-129 | a row not itself locked says that it contains a locked target if and only if some locked target of the plan lies below it |
| CleanupPlanBytes.ComputeTotals | internal/cleaner/unified_cleanup_plan_helpers.go:188-218 | selected and reviewable make eligible, eligible and hard-locked make all, in targets and bytes |
| CleanupReview.NumberRows | internal/cleaner/unified_cleanup_review.go:101-119 | locked rows have no number, the others their owner's place among the unlocked owners |
| CleanupReview.ToggleRow | internal/cleaner/unified_cleanup_review.go:121-165 | the toggled plan, and whether anything changed |
| CleanupReview.ToggleFlipsOwner | internal/cleaner/unified_cleanup_review.go:121-165 | in a coherent plan a toggle flips exactly the numbered owner's rows, targets and component |
| CleanupReview.NumbersFollowRows | internal/cleaner/unified_cleanup_review.go:101-119 | an owner whose first unlocked row is earlier has the smaller number |
| CleanupReview.TogglesCountParity | internal/cleaner/unified_cleanup_review.go:121-165 | after any toggle sequence exactly the owners toggled an odd number of times are flipped, the plan is coherent and numbering unchanged |
| CleanupReview.TogglesAreInvolutiveAndCommute | internal/cleaner/unified_cleanup_review.go:121-165 | toggling a number twice is the identity and toggles commute |
| CleanupReview.FlippingKeepsLocksAndBytes | internal/cleaner/unified_cleanup_review.go:121-165 | locks never change and no byte moves |
| CleanupReview.FreshIsCoherent | internal/cleaner/unified_cleanup_plan_helpers.go:90-130 | in a fresh plan rows, targets and components agree on selection |
| CleanupReview.ToggledPlanIsClear | internal/cleaner/unified_cleanup_plan_helpers.go:41-48 | a toggled plan is clear of locks if and only if no component toggled on had a locked target below it |
| CleanupReview.ToggledPlanIsAntichain | internal/cleaner/unified_cleanup_plan_helpers.go:31-69 | after any toggles of a fresh plan no selected component contains another if and only if none was toggled on above one selected in the end |
| ByteAccounting.FindForest | internal/cleanjson/snapshot_rows.go:17-37 | each component's parent is the deepest component containing it, the first of equally deep ones |
| ByteAccounting.Allocate | internal/cleanjson/snapshot_rows.go:39-64 | a subtree is given exactly its budget up to its owner's size, every share is between zero and its size, and nothing outside changes |
| ByteAccounting.AssignAccountingBytes | internal/cleanjson/snapshot_rows.go:16-71 | every tree sums to its root's size, all components to all the roots', and children are charged before their owner |
| ByteAccountingTheorems.AssignmentIsUnique | internal/cleanjson/snapshot_rows.go:16-71 | sizes and containment determine the division: no other has these properties |
| ByteAccountingTheorems.OwnBytesAreTheRest | internal/cleanjson/snapshot_rows.go:39-64 | a component keeps what its budget exceeds the sizes of the components directly in it by, and exactly nothing when they cover it |
| ByteAccountingTheorems.SubtreeGetsItsBudget | internal/cleanjson/snapshot_rows.go:39-64 | a component with all it contains is given its size as far as its owner's budget goes after its elder siblings' sizes |
| ByteAccountingTheorems.SubtreeIsWithin | internal/cleanjson/snapshot_rows.go:17-37 | when keys are distinct a component's tree is what lies at or below its path |
| ByteAccountingTheorems.PathsGetTheirSizes | internal/cleanjson/snapshot_rows.go:16-71 | what lies at or below an outermost path is given exactly the size found there, what lies at or below any other at most that; negative sizes count as nothing |
| ByteAccountingTheorems.TotalsFor | internal/cleanjson/snapshot_rows.go:87-109 | the loop computes the totals by decision |
| ByteAccountingTheorems.DecisionsPartition | internal/cleanjson/snapshot_rows.go:87-109 | the four decision totals partition targets and bytes |
| ByteAccountingTheorems.DecisionSums | internal/cleanjson/snapshot_rows.go:87-109 | bytes, targets and rows add up over components |
| SnapshotRows.ComponentForPath | internal/cleanjson/snapshot.go:142-179 | a component is found if and only if one is at, above or below the path: exact first, then the deepest container, then the shallowest contained, and the first of equally good ones |
| SnapshotRows.BestMatchIsUnique | internal/cleanjson/snapshot.go:142-179 | only one component is that |
| SnapshotTheorems.BestMatchExists | internal/cleanjson/snapshot.go:142-179 | and one is whenever some component is at, above or below the path |
| Snapshot.AddPlanRows | internal/cleanjson/snapshot.go:35-59 | each component gets exactly the plan rows whose owner is its key, in order, with their relations; rows of other owners are counted but not shown |
| Snapshot.AddAudit | internal/cleanjson/snapshot.go:61-99 | an audit row is shown only beyond the plan rows with its identity, behind the plan rows of the component its audit's path matches best, or on a new component for that path |
| Snapshot.AddInventory | internal/cleanjson/snapshot.go:102-125 | inventory is shown only beyond the evidence already shown, each item behind the rows of the component its path matches best |
| Snapshot.EnsureOwnerRow | internal/cleanjson/snapshot_rows.go:73-85 | a component with rows shows an owner row, and no evidence changes |
| Snapshot.SnapshotComponents | internal/cleanjson/snapshot.go:16-140 | every row is on its component: plan rows under their owner in order, audit rows beyond the plan and leftover inventory under the component their path matches best; rows are sorted and get an owner row; for every identity the rows shown are the plan's, the audit's beyond them and the matched inventory's beyond both; bytes are divided as above |
| SnapshotTheorems.PlanLinesExactly | internal/cleanjson/snapshot.go:35-59 | the plan rows a component is to have are those whose owner is its key, each at the place its predecessors leave, and no others |
| SnapshotTheorems.BeyondLinesExactly | internal/cleanjson/snapshot.go:61-99 | the rows of an audit beyond the plan are those whose identity earlier audit rows have used as often as the plan has it, in order |
| SnapshotTheorems.RowsAreWhereTheyBelong | internal/cleanjson/snapshot.go:16-140 | every row of a snapshot is a plan row of its component, an audit row beyond the plan whose path its component matches best or stands for alone, or a leftover item whose path it matches best |
| SnapshotTheorems.PlanRowIsShown | internal/cleanjson/snapshot.go:35-59 | a plan row whose owner is a component is shown under it, with its relation or as the owner row |
| SnapshotTheorems.MatchedRowIsShown | internal/cleanjson/snapshot.go:61-78 | an audit row beyond the plan is shown under the component its audit's path matches best |
| SnapshotTheorems.UnmatchedRowIsShown | internal/cleanjson/snapshot.go:80-99 | an audit row of an audit that matches none is shown under a component of the audit's own |
| SnapshotTheorems.LeftoverIsShown | internal/cleanjson/snapshot.go:102-125 | a leftover inventory item is shown under the component its path matches best |
| SnapshotTheorems.ComponentsCome | internal/cleanjson/snapshot.go:16-140 | the components are the planned ones and one for each audit that matches none, with their own keys, owners and decisions, and no others |
| SnapshotTheorems.EachHasAComponent | internal/cleanjson/snapshot.go:16-140 | each planned component and each unmatched audit has its component |
| SnapshotTheorems.OwnersComeFirst | internal/cleanjson/snapshot_policy.go:177-190 | owner rows come before exact ones and these before all others |
| SnapshotTheorems.EqualItemsStayInOrder | internal/cleanjson/snapshot_policy.go:177-190 | rows of the same item and relation keep their order |
| SnapshotTheorems.PlanIsCounted | internal/cleanjson/snapshot.go:184-186 | plan rows are counted by identity, each once |
| Snapshot.NoEvidenceIsLostOrCountedTwice | internal/cleanjson/snapshot.go:35-125 | when plan rows have their components each identity is shown max(plan, audit) times, or the max of all three where a component touches its path |
| Execution.ExecutePreparedTargets | internal/executor/orchestration.go:132-246 | without empty or repeated keys every target gets exactly one unit in order and freed bytes are their sum; the units and the failure are those of the batch described by the rows below |
| Execution.CancelledUnitsDidNothing | internal/executor/orchestration.go:176-241 | a unit is cancelled if and only if the batch had stopped before it or its own attempt was cancelled or cut short; a stopped batch attempts, removes and frees nothing more |
| Execution.BatchSucceeds | internal/executor/orchestration.go:176-246 | a batch reports no failure if and only if keys are sound, the context held throughout and every target was executed without one |
| Execution.FreedIsASum | internal/executor/orchestration.go:132-246 | what units freed together is the sum of what each freed, and a unit made without an attempt freed nothing |
| Execution.RunTarget | internal/executor/orchestration.go:190-227 | an unprepared, unsafe or evidence-less target fails with no attempt, removal or freed byte; any other is reported as its attempt went, and as cancelled if and only if the attempt said so or was cancelled before it touched anything |
| Receipts.Receipt.Mark | internal/cleanjson/receipt_execute.go:511-532 | one line gets the state, the others stay |
| Receipts.Receipt.ApplyUnit | internal/cleanjson/receipt_execute.go:670-717 | a unit sets its line's state, request, removal and residual bytes and the residual bookkeeping; the line shows the unit's own freed bytes unless they are negative, and zero then |
| Receipts.AppliedShows | internal/cleanjson/receipt_execute.go:695-706 | the line of a unit is requested, has its state, removal and residual, and its freed bytes unless negative |
| Receipts.NotingIsLocal | internal/cleanjson/receipt_execute.go:239-263 | residuals stay disjoint, one target changes, removal forgets it, and a measurement never drops |
| Receipts.ResidualsMean | internal/cleanjson/receipt_execute.go:265-291 | when what a target leaves counts as measured, and when as unmeasured, by its bytes, state and attempt |
| Receipts.NotingMeans | internal/cleanjson/receipt_execute.go:239-263 | the larger measurement is kept, an unmeasured survivor counts only without one, and an untouched one changes nothing |
| Receipts.Receipt.Finalize | internal/cleanjson/receipt_execute.go:777-834 | pending lines fail, totals count the lines, and the status follows unless requests and outcomes disagree |
| Receipts.SoundLinesAreAccounted | internal/cleanjson/receipt_execute.go:813-821 | when requested means having an outcome on every line, the disagreement branch is unreachable |
| Receipts.SucceededMeans | internal/cleanjson/receipt_execute.go:822-832 | the status is succeeded if and only if no line is partial, failed or cancelled |
| Receipts.StatusMeans | internal/cleanjson/receipt_execute.go:822-832 | what each of the four statuses says of the lines, each as an equivalence |
| Receipts.TotalsCount | internal/cleanjson/receipt_execute.go:783-804 | the totals are the numbers of lines in each state and of requested lines |
| Receipts.FreedTotalIsASum | internal/cleanjson/receipt_execute.go:805 | the freed total adds the lines' own freed bytes |
| ReceiptTheorems.CompatibleExactly | internal/cleanjson/receipt_guided.go:144-224 | outcomes are compatible if and only if each unit fits a prepared target (which was not observed, or was observed as cancelled and the unit did nothing), no target has two, and each unobserved target has one |
| GuidedReceipts.GuidedReceipt.ObserveInteractiveSkip | internal/cleanjson/receipt_guided.go:100-127 | the first observation of a known target sets its disposition and line; anything else is an identity error |
| GuidedReceipts.GuidedReceipt.Finish | internal/cleanjson/receipt_guided.go:144-224 | no identity error is reported if and only if none was observed and every prepared target has one compatible outcome; then every unit stands on its line, the other lines are as they were, and the freed total is what the units freed, those with a negative amount left out; an error after a mutation is still published and never as success |
| GuidedReceipts.BytesAreFreed | internal/cleanjson/receipt_execute.go:701-704 | what is recorded of units adds up to what those that freed no negative amount freed |
| GuidedReceipts.GuidedLoop.Clean | cmd/clean_interactive.go:57-140 | for every sequence of answers, ends of input, read errors, cancellations and validation results, the units and dispositions are exactly those called for, and an error is returned exactly when a target failed or the loop was cut short by anything but the end of input |
| GuidedReceipts.GuidedLoop.CancelRemaining | cmd/clean_interactive.go:73-83 | each remaining target is observed as cancelled and has one matching cancelled unit |
| GuidedReceipts.RunGuided | cmd/clean_interactive.go:57-140 | a whole guided run ends with one compatible outcome for each prepared target, so the receipt finds no identity error; its freed total is the sum of what the units freed (of those that freed no negative amount); and every line is its unit's, or skipped when declined, cancelled when unanswered, failed when safety refused it, or as the plan decided |
| ReceiptTheorems.GuidedUnitsAre | cmd/clean_interactive.go:57-140 | the units of a guided run are exactly those called for, target by target: failed when unsafe, none when declined, as executed when approved, cancelled or failed behind the stop |
| ReceiptTheorems.GuidedStops | cmd/clean_interactive.go:57-140 | which answers, read errors and validations end the loop, and how |
| ReceiptTheorems.GuidedDispositions | cmd/clean_interactive.go:57-140 | which targets are observed as declined and which as cancelled |
| ReceiptTheorems.PassedWellMeans | cmd/clean_interactive.go:57-140 | which targets the loop passes without an error |
| ReceiptExecution.BindPrepared | internal/cleanjson/receipt_execute.go:543-571 | binding succeeds if and only if component keys are distinct and every target has an unchanged key and a line of its own |
| ReceiptExecution.RejectMismatch | internal/cleanjson/receipt_execute.go:352-363 | a selected set other than the prepared one fails every line of either and nothing else |
| ReceiptExecution.ApplyExecution | internal/cleanjson/receipt_execute.go:670-717 | with one unit for each key, each stands on its own line, no other line changes and no error arises |
| ReceiptExecution.ExecuteEach | internal/cleanjson/receipt_execute.go:409-475 | target by target: executed, skipped, or from the stop on failed or cancelled as the answers say; no recorded outcome is overwritten and no freed byte is lost; no error if and only if every target was declined or executed without a failure, or no reader was given |
| ReceiptExecution.ExecuteAll | internal/cleanjson/receipt_execute.go:376-407 | one batch: refused at the prompt, refused by validation, or executed; no error if and only if it was approved, validated and executed without a failure |
| ReceiptExecution.ExecuteReceipt | internal/cleanjson/receipt_execute.go:307-407 | something is asked or executed if and only if there are prepared targets, they are bound, and their lines are those of the selected ones; an error is returned exactly when they are not or the run did not end well; the receipt always adds up |
| ReceiptTheorems.PromptStops | internal/cleanjson/receipt_execute.go:409-475 | everything but a clear answer cancels the rest, and an approval may be refused by validation |
| ReceiptTheorems.LeftStates | internal/cleanjson/receipt_execute.go:409-475 | declined targets are skipped, the one validation refused fails, and every other from the stop on is cancelled |
| ReceiptTheorems.RunEndsWell | internal/cleanjson/receipt_execute.go:409-475 | a run cut short is free of error if and only if it had no reader; a whole one if and only if no approved target failed |
| ReceiptTheorems.CanBindMeans | internal/cleanjson/receipt_execute.go:543-571 | a target can be bound if and only if its key is there and unchanged and its path is that of a line |
| ReceiptRuns.ExecutorIsFaithful | internal/executor/orchestration.go:132-246 | the executor answers every batch of distinct keys with one unit for each key in order |
| ReceiptRuns.RunReceipt | internal/cleanjson/receipt_execute.go:307-407 | a whole run on top of that executor: every executed target's unit stands on its line, every other line is in the state its stop or the plan calls for, the freed total is the sum of what the units freed (of those that freed no negative amount), and an error is returned exactly when some step did not go well |
| Dispatch.StepKeepsSound | internal/scanner/scanner_dispatch.go:25-73 | every step of every interleaving keeps slots, wait count, messages and close consistent |
| Dispatch.AtMostTwoScans | internal/scanner/scanner_dispatch.go:34-60 | at most two scans are in flight in every state of every run |
| Dispatch.SendIsFree | internal/scanner/scanner_dispatch.go:30-64 | no send blocks or follows the close |
| Dispatch.EveryProviderReports | internal/scanner/scanner_dispatch.go:38-72 | when the consumer is done it holds exactly one result from every provider |
| Dispatch.FinishedRunHasReport | internal/scanner/scanner_dispatch.go:44-64 | that result is what the provider's scan ended with, or a context error when it never began |
| Dispatch.UndisturbedRunsScanAll | internal/scanner/scanner_dispatch.go:38-66 | in a finished run whose context never ended every result is what that provider's scan ended with |
| Dispatch.GivesUpWhenCancelled | internal/scanner/scanner_dispatch.go:40-56 | a goroutine gives up only after the caller cancelled or a scan ended with a context error |
| Dispatch.CancelledExactly | internal/scanner/scanner_dispatch.go:57-64 | the scans' context has ended if and only if one of the two happened before |
| Dispatch.ScansBeginTogether | internal/scanner/scanner_dispatch.go:30-68 | no scan begins before every provider's goroutine has been started |
| Dispatch.NeverStuck | internal/scanner/scanner_dispatch.go:25-73 | until the consumer is done some step is possible |
| Dispatch.RunsAreBounded | internal/scanner/scanner_dispatch.go:25-73 | no run is longer than eight steps for each provider and five |
| Dispatch.MaximalRunsFinish | internal/scanner/scanner_dispatch.go:25-73 | every run that cannot be extended but by a cancellation ends with the consumer done and one result from every provider |
| Dispatch.EveryRunCanFinish | internal/scanner/scanner_dispatch.go:25-73 | every run, however scheduled and cancelled so far, goes on to a finished one without another cancellation |
| ScanAggregate.AggregateProviderResults | internal/scanner/scanner_aggregate.go:34-119 | an inventory is returned if and only if no context error was reported or seen at any look and retention succeeded; it holds what was found, owned and not excluded by falling size, its sums, and who failed by name |
| ScanAggregate.InventoryIsComplete | internal/scanner/scanner_aggregate.go:34-119 | from dispatch to inventory: every scan's rows are held, excluded or not owned, or its failure is named, and none was cancelled |
| ScanAggregate.InventoryAddsUp | internal/scanner/summary.go:8-30 | the sums by category and by tool each add up to the total, and shown, excluded and unowned rows make up what was found |
| ScanAggregate.SumsAreSums | internal/scanner/summary.go:8-30 | a sum counts its rows and adds their sizes and strippable bytes, each for itself |
| ScanAggregate.SumOfOneKey | internal/scanner/summary.go:16-30 | the sum of a category or tool is that of the rows with it |
| ScanAggregate.RowsMean | internal/scanner/scanner_aggregate.go:34-119 | what one result or one row contributes to what is found, failed, owned and kept |
| ScanAggregate.RowsAreConcatenated | internal/scanner/scanner_aggregate.go:34-119 | rows are checked and excluded one by one, in order |
| RefreshMemo.Memo.Get | internal/cleaner/overlap_runtime.go:31-57 | a known key answers from memory; otherwise the scan decides, errors are not remembered and a failed fingerprint is never reused |
| RefreshMemo.Run | internal/cleaner/overlap_runtime.go:31-65 | in any run in which equal keys of a batch mean equal findings, every successful answer is what scanning would give, and a query fails only where the scan does |
| EntryFingerprint.AgentStateEntryFingerprint | internal/cleaner/overlap_runtime.go:136-164 | the loop computes the fingerprint, or nothing when a root cannot be read |
| EntryFingerprint.FingerprintIsExact | internal/cleaner/overlap_runtime.go:136-164 | for the same roots fingerprints are equal if and only if the entries are, an absent root counting as one entry named like the placeholder |
| EntryFingerprint.FingerprintIsInjective | internal/cleaner/overlap_runtime.go:126-135 | without an entry of that name equal fingerprints mean equal entry sets |
| MutationBarrier.MergeObligations | internal/cleaner/overlap_mutation_helpers.go:146-167 | succeeds if and only if equal keys have equal providers, and then has each key once, with its last obligation, in the order of the keys |
| MutationBarrier.Revalidate | internal/cleaner/overlap_mutation.go:126-149 | the loop leaves a passed prefix, at most one blocked outcome, and a suffix not attempted |
| MutationBarrier.ValidateBeforeMutation | internal/cleaner/overlap_mutation.go:23-172 | mutation is allowed if and only if the refreshed plan stands and every obligation of the union passes, unchanged before and after; at every stop the report and the path it blames are exactly those of the place it stopped at |
| MutationBarrier.RefusalIsShown | internal/cleaner/overlap_mutation_helpers.go:56-109 | when the refreshed plan refuses because of an entry that is among its matches, some outcome at that entry is blocked, and outcomes elsewhere stay |
| MutationBarrier.MatchIsFirst | internal/cleaner/overlap_mutation_helpers.go:133-144 | the match of an entry is the first with its path and, when one is named, its tool |
| MutationBarrier.PlainRefusal | internal/cleaner/overlap_mutation_helpers.go:56-80 | a refusal blocks exactly the first outcome at its entry, of its tool when it names one, and classifies it as the match is |
| MutationBarrier.NestedRefusal | internal/cleaner/overlap_mutation_helpers.go:82-109 | a refusal over an entry inside the target adds at most one outcome, the blocked entry, and keeps the order of keys |
| MutationBarrier.KeyLessMeans | internal/cleaner/overlap_mutation_helpers.go:111-113 | outcomes and obligations are ordered by tool and then by path |
| MutationBarrier.EveryObligationPassed | internal/cleaner/overlap_mutation.go:89-171 | when allowed, every planned and every refreshed obligation was classified orphaned with its own provider |
| MutationBarrier.MutationMeans | internal/cleaner/overlap_mutation.go:89-172 | everything that must hold for a mutation, clause by clause |
| MutationBarrier.PlannedIdentityChecked | internal/cleaner/overlap_mutation_helpers.go:146-167 | a planned obligation's own identity is among those checked if and only if no refreshed obligation with its key differs from it |
| MutationBarrier.ReplacedIdentityPasses | internal/cleaner/overlap_mutation.go:89-171 | two concrete obligations for which mutation goes ahead although the planned one's entry was replaced |
| ActivityIndex.Aggregate | internal/codexactivity/cache.go:217-318 | each index holds exactly the keys of counted records, with their count, latest time and first project |
| ActivityIndex.WorktreeIndexMeans | internal/codexactivity/cache.go:217-253 | a worktree is indexed if and only if it has a session; its entry counts them, has the latest time any of them was written or changed, and the first one's project |
| ActivityIndex.CountedMeans | internal/codexactivity/cache.go:43-48 | a session counts when it is valid and names worktree, project and time; its activity is the later of its two times |
| ActivityIndex.CountsAreComplete | internal/codexactivity/cache.go:217-318 | the session counts of each index sum to the number of counted records |
| ActivityIndex.WorktreeCountsItsMembers | internal/codexactivity/cache.go:217-318 | a worktree's count is the sum over its members |
| ActivityIndex.WorktreeIsAsLateAsItsMembers | internal/codexactivity/cache.go:217-318 | a worktree's latest time is the latest of its members' |
| ActivityIndex.RefreshHome | internal/codexactivity/cache.go:127-145 | reusing cached records that still hold gives what reading every file gives |
| ActivityIndex.RefreshIndexes | internal/codexactivity/cache.go:96-172 | refreshing all homes and aggregating gives the availability and the indexes of reading every file of every home anew |
| ActivityIndex.RecordsComeFromHomes | internal/codexactivity/cache.go:148-158 | a record is indexed if and only if an available home holds its path, and it is that home's |
| ActivityIndex.HomeRecordsMean | internal/codexactivity/cache.go:96-172 | a home is available if and only if it can be listed and read throughout, and holds the record of the last file at each path |
| ActivityIndex.HitMeans | internal/codexactivity/cache.go:127-145 | a cached record is reused only for the same path and home with the file's time and size |

## Left out

- RecordedCwd.ReadRecordedCwds: the decoding of a captured cwd value by the library (`json.Unmarshal`, path checks) is
  a parameter; the model decides which bytes are captured.
- SafeDeleteGate.Check: the identity layer (`os.SameFile`, case aliases) is an arbitrary answer that can only refuse
  more; Windows, case folding and irregular files are not part of this model.
- SafeDeleteTheorems.ProtectedSurvives: a location whose last name is `..` has no directory entry of its own, so only
  where it leads is spoken of.
- CleanupTargets.NormalizeTargets: only absolute canonical paths; relative ones and the lookup that canonicalizes them
  are not part of this model.
- CleanupComponents.BuildPhysicalComponents: a row's target key and canonical path, always equal, are one field; the
  policy decision text is carried by the item.
- CleanupPlanBuilder.BuildUnifiedCleanupPlan: cancellation between steps, which only turns the result into an error,
  and the provider errors of the evidence are not modelled.
- Snapshot.SnapshotComponents: policy decisions and reason codes of rows are labels without a rule to prove.
- Execution.ExecutePreparedTargets: what removing one target does is an arbitrary attempt; `ExecutePathCleanupTarget`
  and the Git-aware removal are not modelled.
- GuidedReceipts.GuidedReceipt.Finish: reason codes of lines are not modelled; the confirmation text is taken as
  already recognised.
- ReceiptExecution.ExecuteReceipt: post-clean volume reports, reason codes and path output are not modelled; the
  reader is missing or not at each prompt.
- MutationBarrier.ValidateBeforeMutation: how the refreshed plan is built from matches, and the texts of reasons, are
  not modelled.
- Dispatch.NeverStuck: a provider's scan is assumed to return.
- ScanAggregate.AggregateProviderResults: the sums over physical units, the retention projection itself and progress
  events are not modelled; the ownership check and the exclusion patterns are parameters.
- ActivityIndex.RefreshHome: directory walks, proven absence of the default home and cancellation in between are not
  modelled; homes are visited in a given order.
- Real input and output, volume inspection, child processes, rendering, command-line flags, and the encoding of
  documents.
- Overflow of 64-bit sizes: sizes are unbounded integers.
- Windows paths, case-insensitive file systems and reparse points.
- Provider discovery and cache catalogs: table lookups without a hard property.
