# FileSorter engine in Dafny

This is a model of the classification-and-relocation engine of `FileSorter.py`, a desktop
tool that sorts the files under a chosen folder into per-category subfolders. A file's
category is chosen by its extension. The model covers the engine's parts:

- **Extension key** (`PathText`): Python's `os.path.splitext`, `basename`, `dirname` and
  `join` on `/`-separated paths. From these the model derives the lookup key of a file
  name, which is the reserved `no_extension` sentinel for extensionless names.
- **Protected-root test and hidden test** (`PathText`, `Organizer.FindProtectingRoot`):
  the separator-aware prefix test against the forbidden system paths, and the Unix
  dot-prefix rule for hidden entries.
- **Category table** (`Categories`): an insertion-ordered dict from category name to a set
  of extension tokens, held by the class `CategoryTable`.
  - The first-match classifier.
  - The validated add/update/rename operation of the settings window, as a pure decision
    `Decide` followed by `Install`.
  - Removal, and the query for the extensions owned by the other categories.
  - The invariants that the operations preserve: names are unique, no token is owned by
    two categories, and only the reserved `NO_EXTENSION_FILES` category holds the sentinel.
- **Scanner** (`Scanner`): the top-down walk of phase 1. It never descends into a hidden
  directory, drops hidden files and counts everything it skips.
  - `Scan` is a worklist method, proved equal to the recursive specification `Walk`/`Skipped`.
  - Lemmas show that the walk returns exactly the visible files reachable through visible
    directories, and that every entry it meets is either returned or counted as skipped.
- **Relocator** (`Relocator`): the filesystem as a class `FileSystem` holding a set of file
  paths and a set of directory paths.
  - Folder creation.
  - The collision-safe move, with its probe `stem_1.ext`, `stem_2.ext`, … and the
    "already in place" no-op.
  - The bottom-up sweep of phase 3, which deletes empty folders but never the organize root
    or a category folder used in the run. When every folder is visited after its
    sub-folders, a whole tree of empty folders is removed in one pass.
- **Organizer** (`Organizer`): the per-file loop of phase 2 and the whole run.
  - Each file gets a `Plan` (skip, already placed, or relocate into category `c`).
  - The loop's `Event`s are proved to follow those plans.
  - The set of category folders used is proved to be exactly the set of relocation targets.
  - Every file that appears lies directly inside `target/c` for a used category `c`, and it
    lands on the name the collision probe picks.
  - A relocation is refused exactly when a file occupies the path of its category folder.
    When no such file exists and the scanned files are present and distinct, every
    relocation moves its file.

Two behaviours of the code are easy to overlook; the model states both as written.
1. When the scan finds no files, the run ends before phase 3 (FileSorter.py:561-564), so
   empty folders are then left in place. `Organizer.Organize` states that such a run
   changes nothing.
2. The reserved category is accepted only when the whole extension text is exactly
   `no_extension` (FileSorter.py:401). An input such as `no_extension,` is refused, even
   though its token set is `{no_extension}`.

## Model

| member | source | states |
|---|---|---|
| PathText.SplitExt | FileSorter.py:209 | `splitext` cuts the name into stem and suffix, which concatenate back to the name; the suffix is empty or one dot followed by neither dots nor separators |
| PathText.FileExtension | FileSorter.py:208-210 | the extension is as long as the `splitext` suffix, and is either empty or one dot followed by no other dot; it has no upper-case letter |
| PathText.ExtensionKey | FileSorter.py:575-584 | the lookup key is never empty: an empty key is replaced by the sentinel |
| PathText.ExtensionKeyCases | FileSorter.py:575-584 | the key is the sentinel when the splitext suffix is empty or a bare dot, and otherwise the lower-cased suffix without its dot |
| PathText.ExtensionKeyShape | FileSorter.py:575-584 | every key is non-empty, has no dot and has no upper-case letter, so the empty key of line 583 never reaches the lookup |
| PathText.ExtensionKeyOfBaseName | FileSorter.py:208-210 | for a base name, the key is the lower-cased text after its last dot when that dot is neither last nor preceded only by dots; otherwise it is the sentinel |
| PathText.SuffixOfBaseName | FileSorter.py:209 | for a base name, the `splitext` suffix starts at the last dot unless only dots precede it, and is empty otherwise |
| PathText.DotlessHasNoExtension | FileSorter.py:575-584 | a base name with no dot is keyed by the sentinel |
| PathText.KeyOfStemAndSuffix | FileSorter.py:575-580 | a name `stem.ext`, where the stem has a non-dot character and `ext` has no dot, gets key `lower(ext)` |
| PathText.ReportPdfKey | FileSorter.py:579-580 | `report.PDF` is keyed `pdf` |
| PathText.SplitExtOfTxt | FileSorter.py:237 | `splitext("a.txt")` is `("a", ".txt")` |
| PathText.DotFileHasNoExtension | FileSorter.py:576-577 | a dot file such as `.bashrc` has no extension and is keyed by the sentinel |
| PathText.TrailingDotHasNoExtension | FileSorter.py:576-584 | a name ending in a dot is keyed by the sentinel |
| PathText.SentinelSuffixCollides | FileSorter.py:575-584 | a file literally named `x.no_extension` gets the same key as the extensionless file `x` |
| PathText.StripKeeps | FileSorter.py:386 | `strip` leaves a string without surrounding whitespace unchanged |
| PathText.BaseNameOfJoin | FileSorter.py:226-230 | `basename(join(d, n))` is `n` for a plain name |
| PathText.RStripNoTrailing | FileSorter.py:233 | stripping the trailing separators of `s + "/"` gives back `s` when `s` has none of its own |
| PathText.DirNameOfJoin | FileSorter.py:233 | `dirname(join(d, n))` is `d` for a normalised folder and a plain name |
| PathText.UnderRootIff | FileSorter.py:545 | the target is protected by a root exactly when it equals the root or extends it by a separator and more |
| PathText.UnderRootExamples | FileSorter.py:545 | `/usr/bin` lies under `/usr`, but `/usrlocal` does not |
| Categories.DeleteKey | FileSorter.py:437 | `del` leaves exactly the entries whose name differs, and nothing changes when the name is absent |
| Categories.DeleteAbsentKey | FileSorter.py:437 | deleting a name no entry has leaves the table as it is |
| Categories.DeleteKeyKeepsOrder | FileSorter.py:437 | in a table with unique names, `del` removes exactly the named entry and keeps the other entries in their order |
| Categories.SetKey | FileSorter.py:439 | assigning a new key appends the entry at the end of the dict |
| Categories.AssignedExcept | FileSorter.py:371-378 | a token is collected exactly when some entry, other than the excluded one when an exclusion is given, owns it |
| Categories.FirstMatch | FileSorter.py:586-589 | a category found by the lookup is a key of the table |
| Categories.FirstMatchSpec | FileSorter.py:586-589 | the lookup finds nothing exactly when no entry owns the key; otherwise it returns the name of the first entry that owns it |
| Categories.FirstMatchUnique | FileSorter.py:586-589 | in a table with disjoint token sets, the entry owning the key is the one found, whatever the order |
| Categories.Split | FileSorter.py:405 | `split(',')` yields at least one part and no part contains a comma |
| Categories.SplitWithoutSeparator | FileSorter.py:405 | a text without a comma splits into itself |
| Categories.SplitJoinRoundTrip | FileSorter.py:405 | joining the parts of a split with the separator gives back the text |
| Categories.Tokens | FileSorter.py:410-411 | a text is a parsed token exactly when it is a stripped part of the input that is neither empty nor a bare dot |
| Categories.TokensOfWord | FileSorter.py:410-411 | a single clean word parses to exactly itself |
| Categories.TokensOfSentinel | FileSorter.py:401-411 | the sentinel text parses to the token set `{no_extension}` |
| Categories.Decide | FileSorter.py:386-433 | an accepted request has a non-empty stripped name and a non-empty token set that no other category owns. Its name is new unless it is the entry being edited. It satisfies both reserved-name rules |
| Categories.DecideAccepts | FileSorter.py:386-433 | a request that passes every check is accepted, with the stripped name and the parsed tokens |
| Categories.OwnedTokenRejected | FileSorter.py:427-433 | a request naming a token owned by a different category is refused |
| Categories.DecideKeepsReservedRule | FileSorter.py:401-408 | an accepted reserved category owns exactly the sentinel, and any other accepted category does not own it |
| Categories.DeleteKeyDistinct | FileSorter.py:437 | deleting a key keeps names unique |
| Categories.SetKeyEffect | FileSorter.py:439 | assignment keeps names unique, adds the name to the keys, and replaces any entry of that name with the new one |
| Categories.SetKeyKeepsPosition | FileSorter.py:439 | updating an existing key keeps its position in the dict |
| Categories.Install | FileSorter.py:435-439 | after a rename and assignment, the new entry is in the table |
| Categories.InstallEffect | FileSorter.py:435-439 | after a rename and assignment, names stay unique and the name maps to the new tokens. The old name is gone when it was renamed, and every other entry is untouched |
| Categories.LookupOfMember | FileSorter.py:439 | in a table with unique names, an entry's name maps to its tokens |
| Categories.LookupOfAbsent | FileSorter.py:503-506 | an absent name maps to nothing |
| Categories.DecidePreservesDisjoint | FileSorter.py:427-439 | installing an accepted request keeps every token owned by at most one category |
| Categories.DecidePreservesReservedRule | FileSorter.py:401-408 | installing an accepted request keeps the sentinel owned only by the reserved category |
| Categories.CategoryTable.constructor | FileSorter.py:106 | the table starts with the loaded entries, whose names are unique |
| Categories.CategoryTable.AssignedExtensions | FileSorter.py:371-378 | the loop collects exactly the tokens of the entries other than the excluded one |
| Categories.CategoryTable.Classify | FileSorter.py:586-589 | the loop returns the first category owning the key, or nothing |
| Categories.CategoryTable.AddOrUpdate | FileSorter.py:382-439 | a refused request leaves the table unchanged and reports why. An accepted one installs the new entry. Unique names, disjoint token sets and the reserved rule are all preserved |
| Categories.CategoryTable.Remove | FileSorter.py:503-506 | removal leaves exactly the other entries; the name then maps to nothing |
| Scanner.PruneHiddenSubdirs | FileSorter.py:177-184 | the loop keeps the non-hidden sub-directories in order, each with its joined path, and counts the hidden ones |
| Scanner.FilterHiddenFiles | FileSorter.py:185-190 | the loop keeps the joined paths of the non-hidden files in order and counts the hidden ones |
| Scanner.Scan | FileSorter.py:169-190 | the worklist walk returns exactly the recursive walk's files in `os.walk` order, and skips exactly the entries it says it skips |
| Scanner.ScanNeverReturnsHidden | FileSorter.py:181-190 | no returned path is hidden |
| Scanner.HiddenJoin | FileSorter.py:160-161 | on Unix a joined path is hidden exactly when the entry's own name starts with a dot |
| Scanner.UnixRuleIsNameBased | FileSorter.py:160-161 | the Unix hidden test depends only on the entry's own name |
| Scanner.InVisibleFiles | FileSorter.py:185-190 | a visible file of a directory is returned |
| Scanner.VisibleFileOrigin | FileSorter.py:185-190 | every returned file of a directory is a listed file joined onto it and is not hidden |
| Scanner.ScanSound | FileSorter.py:176-190 | every returned path is reached from the root through visible directories and ends in a visible file |
| Scanner.ScanComplete | FileSorter.py:176-190 | every visible file reached through visible directories is returned |
| Scanner.FilesAccounted | FileSorter.py:185-190 | each file of a directory is either returned or counted as skipped |
| Scanner.ScanAccounts | FileSorter.py:176-190 | returned plus skipped equals every entry the walk meets: the files of visited directories, and their hidden sub-directories |
| Relocator.DecimalLength | FileSorter.py:239 | the decimal text of a count is one digit exactly when the count is below ten |
| Relocator.DecimalInjective | FileSorter.py:239 | different counts have different decimal texts |
| Relocator.CandidateInjective | FileSorter.py:239-246 | different counts give different candidate names `stem_k.ext` |
| Relocator.NotYetProbed | FileSorter.py:242-246 | a candidate at or beyond the current count has not been probed yet |
| Relocator.FirstFreeNumber | FileSorter.py:238-246 | the probe stops at the least count from 1 upwards whose candidate name is free |
| Relocator.ResolveCollision | FileSorter.py:236-247 | a free name is kept. A taken name becomes `stem_k.ext` for the least `k >= 1` that is free, and the result is always free |
| Relocator.CollisionExamples | FileSorter.py:236-247 | with `a.txt` taken the probe yields `a_1.txt`, and with `a_1.txt` also taken it yields `a_2.txt` |
| Relocator.ListingIff | FileSorter.py:278 | a name is listed in a folder exactly when the joined path exists |
| Relocator.Sweep | FileSorter.py:273-284 | the sweep only removes directories |
| Relocator.SweepCounts | FileSorter.py:283 | the deletion count is the number of directories removed |
| Relocator.SweepSnoc | FileSorter.py:273-284 | visiting one more directory removes it exactly when it is unprotected and empty at that moment |
| Relocator.SweepPrefix | FileSorter.py:273-284 | later visits only remove more directories |
| Relocator.SweepKeepsProtected | FileSorter.py:270-276 | the organize root and every used category folder survive the sweep |
| Relocator.SweepLeavesNoOrphans | FileSorter.py:278-280 | a removed directory has no file or remaining directory inside it |
| Relocator.SweepRemovesEmptiedParent | FileSorter.py:273-280 | an unprotected directory holding no files is removed once its sub-directories have all been removed earlier in the walk |
| Relocator.BaseNameHasNoSep | FileSorter.py:226 | a base name contains no separator |
| Relocator.ProbeNameShape | FileSorter.py:237-246 | every probed name is a non-empty plain name |
| Relocator.FileSystem.EnsureFolder | FileSorter.py:213-222 | the folder exists afterwards and is returned, unless a file occupies its path; then nothing changes and no folder is returned |
| Relocator.FileSystem.MoveFile | FileSorter.py:225-262 | a file already in place is a successful no-op. Otherwise the destination is `root/category/name` when that is free, and else `stem_k.ext` in that folder for the least free `k >= 1`. A move takes the source away and adds the destination, which was free. A file moved into an existing folder always lands. The number of files is unchanged |
| Relocator.FileSystem.MoveInto | FileSorter.py:236-256 | the destination is the file's own name in the folder when free, and else the least free `stem_k.ext`. The move puts the file there, or changes nothing |
| Relocator.LandsAtUnique | FileSorter.py:236-247 | the landing rule picks exactly one destination |
| Relocator.ProbeLands | FileSorter.py:236-247 | a name chosen by the probe is where the landing rule says the file lands |
| Relocator.FileSystem.PruneEmpty | FileSorter.py:265-284 | the directories left and the count equal the sweep over the walk order, with the root and used category folders protected; files are untouched |
| Relocator.SweepClearsPrefix | FileSorter.py:273-284 | when every directory comes after its sub-directories in the walk order, each unprotected folder of an empty tree visited so far is gone |
| Relocator.SweepClearsEmptyTree | FileSorter.py:273-284 | in a children-first walk, one pass removes a whole unprotected tree of folders that holds no files |
| Relocator.FileSystem.RemoveEmptyDirs | FileSorter.py:273-284 | the loop computes the sweep step by step |
| Relocator.MoveLands | FileSorter.py:236-254 | a resolved destination is free, lies directly in the folder, and the swap keeps the number of files |
| Organizer.FindProtectingRoot | FileSorter.py:543-549 | the run is refused exactly when some forbidden root covers the target, and the root reported is the first such root |
| Organizer.DestinationsIff | FileSorter.py:613-614 | a category is recorded as used exactly when some plan relocates into it |
| Organizer.UsedIff | FileSorter.py:557-614 | the used set of a run is exactly the categories some scanned file is relocated into |
| Organizer.PlanFor | FileSorter.py:586-606 | an unclassified file carries its key. Otherwise the plan names a non-empty category that the lookup found. A file whose key a non-empty category owns is never skipped. A file is left in place when its folder is that category's folder, and relocated when it is not |
| Organizer.OrganizedFileStays | FileSorter.py:601-606 | a file already in its category's folder is planned to stay |
| Organizer.Plans | FileSorter.py:569 | there is one plan per scanned path |
| Organizer.AllFollowAt | FileSorter.py:569-623 | when a run's events follow its plans, each event follows the plan of its own file |
| Organizer.PlacedStep | FileSorter.py:606-620 | every file that appears lies directly in a used category folder, and the only folders that appear are used category folders; each step keeps this |
| Organizer.ProcessOne | FileSorter.py:569-623 | one file is handled according to its plan. Only a relocation touches the filesystem: it is refused exactly when a file occupies the category folder's path, an existing file is moved whenever the folder can be made, and a moved file lands where the collision probe says; nothing else changes |
| Organizer.RelocateFile | FileSorter.py:608-620 | the folder is refused exactly when a file occupies `target/c`, and then neither files nor directories change. Otherwise the folder exists afterwards and an existing file is moved into it, landing where the collision probe says; a failed move leaves the files unchanged |
| Organizer.PhaseTwoStep | FileSorter.py:569-623 | one more iteration keeps the events following the plans and the used set equal to the relocation targets so far |
| Organizer.AllFollowSnoc | FileSorter.py:569-623 | appending a following event to a following run keeps it following |
| Organizer.DestinationsSnoc | FileSorter.py:613-614 | one more plan adds its category to the used set when it relocates |
| Organizer.ProcessFiles | FileSorter.py:569-623 | every scanned file is processed, each event follows its file's plan, and the used set is exactly the relocation targets. Directories only grow, the file count is kept, and new files lie only in used category folders. When the files are present and distinct and no file blocks a category folder, every relocation moves its file |
| Organizer.RelocationsNamed | FileSorter.py:586-591 | a relocation's category is never empty |
| Organizer.ClearStep | FileSorter.py:608-620 | a move keeps the later files in place and their category folders unblocked |
| Organizer.ProgressStep | FileSorter.py:569-623 | one iteration keeps the later relocations unobstructed and adds a move for a relocation |
| Organizer.EventsFollowPlans | FileSorter.py:569-623 | events following the list of plans means each file's event follows that file's plan |
| Organizer.Organize | FileSorter.py:535-631 | an invalid target is refused with no change. A valid target is refused exactly when a forbidden root covers it, and the refusal names a covering root. Otherwise the run finishes: it processes all scanned files in order, following their plans, reports the skipped count and the used categories, and keeps the target. Every new file lies directly in a used category folder, and no removed folder is the root or a used category folder. When nothing obstructs the relocations, every relocated file moves. When files were scanned, the directories left and the deletion count are those of the phase-3 sweep over the directories after phase 2, which are the old directories plus, at most, the root and used category folders |

## Left out

- The GUI is not modelled: windows, buttons, the status log text, progress-bar fractions and `app.update_idletasks`. Events stand in for the log lines.
- Loading and saving the category settings as JSON is not modelled; the table is an input.
- `get_forbidden_paths` (FileSorter.py:124-148) reads the platform, the environment and the disk; its result is an input to `Organize`.
- The Windows branch of `is_system_or_hidden` calls the operating system. `Scan` and its lemmas take any hidden test as a parameter, and `Organize` uses the Unix rule.
- `os.path.normpath` is not modelled: paths are taken as already normalised, with `/` as separator and no trailing separators.
- `str.lower`, `str.upper` and `str.strip` are modelled on ASCII letters and ASCII whitespace only.
- `os.makedirs` creating missing intermediate parents is not modelled: `EnsureFolder` adds only the category folder.
- `EnsureFolder`'s failures are modelled only as a file occupying the folder's path. Permission and other OS errors are not modelled.
- `shutil.move` is a path swap in the model. Moving across devices is not modelled.
- Exceptions raised in the middle of a run (FileSorter.py:632-641) are not modelled.
- Organize: the tree that the scan walks (`snapshot`) and the bottom-up order of phase 3 (`cleanupOrder`) are inputs. The model does not tie them to the path sets of `FileSystem`, so it states nothing about how the sweep relates to the files moved, and its move guarantee is stated only under the condition that the scanned paths are present and distinct.
- Relocator.FileSystem.PruneEmpty: does not require `cleanupOrder` to list sub-folders first. The children-first order of `os.walk(topdown=False)` is a hypothesis of `SweepClearsEmptyTree`, and only there is a whole empty tree shown to be removed.
- Organizer.ProcessFiles: promises that every relocation moves its file only when the scanned files exist, are distinct, and no file occupies a category folder's path. Otherwise a move can fail, and only the event kinds are stated.
- The scan's error handling (FileSorter.py:175-205) is not modelled. `os.walk` silently skips a directory it cannot list, and any other exception ends the scan with the files found so far. `Scan` assumes that every directory of the snapshot can be listed.
- The sweep's failed `listdir` and `rmdir` calls (FileSorter.py:277-289) are logged and not counted. The model treats every empty, unprotected folder as removable.
- Organize: the concurrent changes by other processes that the source tolerates are not modelled.
- Category names containing `/` are not modelled: such a name would place the category folder deeper than directly under the root.
- Category names `.` and `..` are not modelled as the source treats them. FileSorter.py:601 compares normalised paths, so there a category `.` names the target itself and its files stay. The model's `Join` does not normalise, so `PlanFor` plans a relocation into `target/.`.
- The unused `is_no_ext_cat_name` heuristic (FileSorter.py:397-399) is not modelled, because it has no effect.
- Relocator.FileSystem.MoveFile: returns the destination path alongside the success flag so that contracts can name it. The source returns only the flag.
- PathText.ExtensionKeyCases: the `endswith("..")` test at FileSorter.py:576 is modelled as written. The lemma shows it changes nothing, because line 583 maps the empty key to the sentinel anyway.
- Relocator.CollisionExamples: exercises `FirstFreeNumber` with the `splitext` result `("a", ".txt")`, which `PathText.SplitExtOfTxt` proves, rather than evaluating `splitext` on the literal names inside the method.
