# Image organizer, modelled in Dafny

This project models the `ImageOrganizer` of `organize_images.js`. That script tidies the images of a web site in five phases:

1. It scans the tree below `.` for image files.
2. It backs each one up into `images_backup`.
3. It removes the files it takes for duplicates. Those are files of equal byte size, and the one with the best quality score is kept.
4. It moves every survivor to `images/<category>_<description><ext>`. After each move it rewrites the references to the old path in the code files of `.`.
5. It renders a Markdown report of what it did.

The modules follow the parts of the class:

- `Text`, `Files`, `Sequences`: string and path primitives. They cover `toLowerCase` (ASCII), `includes`, the literal global replace, `split`/`join`, `String(n)`, `padStart`, `path.extname`, `path.basename` and `path.join`. They also hold the two extension lists and the scan's name filter, plus subsequences.
- `Scoring`: `getQualityScore`.
- `Sorting`: the stable sort by descending score that `Array.prototype.sort` performs on a size group.
- `Duplicates`: `findDuplicates`.
  - The size dictionary is a map.
  - `Object.values` follows the JavaScript key order: array-index keys ascending, then the rest in insertion order.
  - The two passes are methods proved against the functions `KeyOrder`, `Group` and `Duplicates`.
- `Naming`: `generateNewName` and the keyword rule table it follows.
- `Disk`: the file system as a class.
  - Its fields are a directory tree, a map of files to sizes and a map of text contents.
  - Fixed maps record the paths on which reading, writing or removing throws, with the message.
  - `copyFileSync`, `unlinkSync`, `readFileSync` and `writeFileSync` are methods on it.
- `Scanning`: `findImageFiles` as a function over the tree.
- `References`: `updateCodeReferences` as a fold over the names of `.`.
- `Reporting`: the report record and `generateReport`.
- `Plan`: the pure decisions of `organize`: survivors, new paths, and the moves actually attempted.
- `Steps`: `organize` as a state machine. Each loop of the source is a fold of a one-iteration function over a `State` made of the file map, the text map and the report.
- `Organizer`: the class `ImageOrganizer`.
  - Its field `report` is updated in place.
  - Its methods (`FindImageFiles`, `UpdateCodeReferences`, `Organize` and the loops of `organize`) are imperative.
  - Each method is proved to leave the file system and the report exactly as the fold in `Steps` prescribes.

## Model

| member | source | states |
|---|---|---|
| Organizer.ImageOrganizer.constructor | organize_images.js:5-15 | a new organizer starts with all five report lists empty |
| Organizer.ImageOrganizer.PushError | organize_images.js:41 | recording an error appends it to the error list and changes no other list |
| Organizer.ImageOrganizer.FindImageFiles | organize_images.js:18-45 | the scan of a directory returns exactly the files of `Scanning.Scan` in walk order and appends exactly its directory errors to the report |
| Organizer.ImageOrganizer.VisitItem | organize_images.js:23-39 | one loop iteration advances the walk by one `Scanning.Step`; it stops only at a name that is not skipped and whose stat throws |
| Organizer.ImageOrganizer.UpdateCodeReferences | organize_images.js:122-157 | the method leaves the text files, the returned update records and the appended errors exactly as `References.CodeRewrite` of the old texts says; a listing failure yields one error and no update |
| Organizer.ImageOrganizer.UpdateItem | organize_images.js:127-150 | one code file is read, rewritten and recorded as `References.RewriteItem` says; read and write failures each append one error |
| Organizer.ImageOrganizer.RewriteFile | organize_images.js:134-146 | once a code file is read, it is rewritten and recorded exactly when it mentions the old path and the write succeeds, as `References.RewriteContent` says; a write failure appends one error |
| Organizer.ImageOrganizer.BackUpFiles | organize_images.js:184-191 | the backup loop leaves files and report as the fold `Steps.BackUpAll` says |
| Organizer.ImageOrganizer.RemoveDuplicates | organize_images.js:194-203 | the removal loop leaves files and report as the fold `Steps.RemoveAll` says |
| Organizer.ImageOrganizer.RenameFile | organize_images.js:211-238 | moving survivor number `index` has the effect of `Steps.RenameOne` on the rename to its new path: copy, reference rewrite, unlink outside `images/`, record; a failing copy or unlink records one error and stops that file |
| Organizer.ImageOrganizer.RenameFiles | organize_images.js:211-239 | the rename loop numbers the survivors in order and has the effect of `Steps.RenameAll` over their moves |
| Organizer.ImageOrganizer.Organize | organize_images.js:160-242 | a run leaves files, texts and report exactly as `Steps.OrganizeSpec` says and returns the report |
| Organizer.ImageOrganizer.GenerateReport | organize_images.js:245-273 | when no entry holds a line break, splitting the rendered text at newlines gives back exactly the report's lines |
| Steps.OrganizeOutcome | organize_images.js:160-242 | a run of a fresh organizer never fills `originalFiles` and its scan errors come first; it removes only duplicates' paths, in order, and no more of them than the files minus the distinct sizes; it renames only planned survivors, in order; no path is both removed and renamed, no rename keeps its path, and every rename's target is in place under `images/` with its source gone unless it already lay there |
| Steps.OrganizeNothingFound | organize_images.js:175-181 | when the scan finds no image, nothing changes but the scan errors, and a clean tree leaves the report as it was |
| Steps.CleanedReport | organize_images.js:175-203 | after scan, backup and removal, a fresh report has no renames, starts its errors with the scan's, and records a subsequence of the duplicates' paths, bounded by files minus distinct sizes |
| Steps.BackUpAllEffect | organize_images.js:184-191 | backing up existing files records one error per file that cannot be copied, in order; it adds exactly the backup paths of the others, changes no other file, and leaves texts and the other report lists alone |
| Steps.BackUpAllKeeps | organize_images.js:184-191 | the backup loop changes only the error list, which it only extends |
| Steps.RemoveAllEffect | organize_images.js:194-203 | each duplicate yields exactly one removal record or one error; a duplicate's path is recorded exactly when its file existed and could be removed, never twice, and the records keep the duplicates' order; exactly the recorded paths vanish from the files; texts and other lists are untouched |
| Steps.RemoveAllExact | organize_images.js:194-203 | when no two duplicates share a path, the records appended are exactly the duplicates' paths whose file existed and could be removed, in order |
| Steps.RemoveOneRecords | organize_images.js:196-202 | one iteration records the duplicate's path exactly when the unlink succeeds, and otherwise records nothing |
| Steps.RemoveStep | organize_images.js:196-202 | one removal keeps the removal invariant, extended by that duplicate |
| Steps.RenameOneEffect | organize_images.js:215-238 | one move records a rename only if its path changes and copy and unlink succeed; a recorded rename leaves the target present and the source gone unless under `images/`, and earlier renames stay in place |
| Steps.RenameOneRecords | organize_images.js:215-237 | one move is recorded exactly when its path changes, the copy succeeds and the original lies under `images/` or can be removed; an unchanged path changes nothing; a failing copy adds one error and nothing else; after a successful copy the code texts and updates are those of the reference rewrite; no file but the source disappears |
| Steps.RenameAllFaultFree | organize_images.js:211-239 | when no two moves share a source and every source exists, is readable and removable (or under `images/`) and every target is writable, every attempted move is recorded, in order |
| Steps.RenameAllKeepsFiles | organize_images.js:211-239 | a file that is the source of no move is still there after the rename loop |
| Steps.FinishEffect | organize_images.js:224-232 | after a successful copy, the unlink-then-record step keeps every recorded rename in place |
| Steps.CopyKeepsMoved | organize_images.js:218 | copying a file into `images/` does not undo any earlier move |
| Steps.RenameAllEffect | organize_images.js:211-239 | the rename loop records a subsequence of the attempted moves in order, keeps every recorded rename in place, only extends the update and error lists and leaves removal records alone |
| Steps.MovesIntoImages | organize_images.js:211-213 | every survivor of a scan gets a target under `images/` |
| Plan.SurvivorsFilter | organize_images.js:206-208 | a file survives exactly when its path is the path of no duplicate, and the survivors keep scan order |
| Plan.PlannedRenames | organize_images.js:217 | a move is attempted exactly when its target differs from its source, in order |
| Plan.NewPathIsPlain | organize_images.js:131-137 | an image's target lies under `images/`, is again an image name, and holds no backslash and no `$`: normalising it changes nothing and the replace inserts it literally |
| Plan.NewNameIsWordAndExtension | organize_images.js:92-118 | a generated name is a lower-case word followed by the original extension |
| Plan.ImageExtensionIsPlain | organize_images.js:6 | no image extension, in any letter case, holds a `$` or a backslash |
| Plan.MovesAvoidDuplicates | organize_images.js:206-211 | no survivor's move starts at the path of a duplicate |
| Plan.RenamedNeverRemoved | organize_images.js:195-232 | no file is both recorded as a removed duplicate and recorded as renamed, and no recorded rename keeps its path |
| Scoring.QualityScore | organize_images.js:81-88 | the score never exceeds 19 |
| Scoring.ScoreRanksTraits | organize_images.js:81-88 | a higher score means better on the first differing quality, in order: no "whatsapp", no "copy", no leading date, an underscore; equal scores mean the same qualities |
| Scoring.ScoreIgnoresCase | organize_images.js:83-86 | names that lower-case alike score alike |
| Sorting.SortByKey | organize_images.js:64-68 | the sorted group is a permutation of the group with non-increasing scores |
| Sorting.SortIsStable | organize_images.js:64-68 | members of equal score keep their input order |
| Sorting.SortHead | organize_images.js:64-72 | the first member after sorting is the earliest member with the top score |
| Sorting.InsertDescending | organize_images.js:64-68 | inserting into a descending sequence keeps it descending |
| Sorting.InsertWithKey | organize_images.js:64-68 | insertion puts a member before the earlier members of its own key, so ties keep their order |
| Sorting.MaxKey | organize_images.js:64-68 | the top score is attained and bounds every member |
| Sorting.FirstBest | organize_images.js:64-72 | the position of the first member that reaches the top score |
| Duplicates.FindDuplicates | organize_images.js:48-78 | the method returns exactly `Duplicates.Duplicates` of its input |
| Duplicates.GroupBySize | organize_images.js:53-58 | the dictionary holds exactly the sizes that occur, each with its files in input order, and its keys come out in `Object.values` order |
| Duplicates.MarkGroup | organize_images.js:61-75 | a group of two or more pushes all its sorted members but the first; a singleton pushes nothing |
| Duplicates.PushAllButFirst | organize_images.js:71-73 | the loop pushes every member of the sorted group but the first, in order |
| Duplicates.Group | organize_images.js:53-58 | a size's group holds only files of that size, all from the input, and is empty exactly when the size does not occur |
| Duplicates.GroupIsFilter | organize_images.js:53-58 | a size's group holds every input file of that size, as often as the input does, in input order |
| Duplicates.AddKey | organize_images.js:54-56 | a new dictionary key joins the key order and keeps array-index keys ascending; a key that is already there changes nothing, and a new key of 2^32-1 or more goes last |
| Duplicates.KeyOrder | organize_images.js:61 | the groups are visited once per occurring size, in the JavaScript key order |
| Duplicates.KeyOrderLate | organize_images.js:53-61 | the groups of sizes of 2^32-1 or more are visited after the others, in the order their sizes first occur |
| Duplicates.KeyOrderAscending | organize_images.js:61 | with sizes below 2^32-1, the groups are visited by ascending size |
| Duplicates.SizeGroupsAreGroups | organize_images.js:53-58 | the dictionary built by the first pass maps each occurring size to its group |
| Duplicates.DuplicatesBySize | organize_images.js:61-75 | with sizes below 2^32-1, the duplicates come out by ascending size |
| Duplicates.DuplicatesPartition | organize_images.js:61-75 | the duplicates and the kept files together are the input, as a multiset |
| Duplicates.DuplicatesCount | organize_images.js:53-75 | one file is kept per distinct size, so there are as many duplicates as files minus distinct sizes |
| Duplicates.GroupDuplicatesCount | organize_images.js:62-74 | a group of n > 0 files yields n - 1 duplicates |
| Duplicates.GroupSplits | organize_images.js:62-74 | a group splits into its kept member and its duplicates |
| Duplicates.KeptInSizes | organize_images.js:61-75 | one file is kept per group visited, of that group's size, in visiting order |
| Duplicates.OneKeeperPerDuplicate | organize_images.js:53-75 | kept files have pairwise different sizes and every duplicate shares its size with one of them, so with exactly one |
| Duplicates.KeeperBeatsDuplicates | organize_images.js:64-73 | every duplicate comes from the input, and the kept file of its size scores at least as high |
| Duplicates.KeeperIsEarliestBest | organize_images.js:64-72 | the kept file of a size is the earliest file of that size with the top score |
| Naming.ClassifyFollowsRules | organize_images.js:99-116 | the chain of tests picks the first matching rule of the fixed table (hero/banner, catering, white/label, hotel/cafe, video/poster), else `image` and the index label |
| Naming.FirstMatch | organize_images.js:99-113 | the rule found is the first rule of the table that matches; none is found exactly when no rule matches |
| Naming.NewNameKeepsExtension | organize_images.js:92-118 | the new name keeps the original extension exactly, letter case included, and its stem is `category_description` |
| Naming.ClassifyIsWord | organize_images.js:96-116 | category and description are lower-case words and the category is never empty |
| Naming.IndexLabelValue | organize_images.js:115 | the fallback label is at least two digits, reads back as `index + 1`, is exactly two characters below 10, and is the plain decimal once that has two digits |
| Naming.IndexLabelExamples | organize_images.js:115 | index 0 gives "01", 2 gives "03", 99 gives "100" |
| Files.ExtName | organize_images.js:31 | the extension is the suffix from the last dot that is not the first character, or empty |
| Files.Stem | organize_images.js:93 | stem followed by extension is the name |
| Files.NormalizeSlashesSpec | organize_images.js:131-132 | normalising turns each backslash into a slash and keeps every other character |
| Files.NormalizeSlashesIdempotent | organize_images.js:131-132 | a normalised path has no backslash, so normalising again changes nothing |
| Text.Contains | organize_images.js:134 | `includes` holds exactly when the pattern occurs at some position |
| Text.ReplaceAllIsJoinOfSplit | organize_images.js:135-138 | the global literal replace is the text split at every non-overlapping occurrence, left to right, joined with the replacement |
| Text.ReplaceAllAbsent | organize_images.js:134-138 | text without the pattern is left unchanged by the replace |
| Text.SplitPiecesAvoidSeparator | organize_images.js:135-138 | the pieces between occurrences contain no occurrence, so every occurrence is replaced |
| Text.JoinSplit | organize_images.js:135-138 | splitting at a pattern and joining with it gives the text back, so replacing a pattern by itself changes nothing |
| Text.SplitJoin | organize_images.js:272 | joining line-break-free lines with newlines and splitting again gives the lines back |
| Text.NatToString | organize_images.js:115 | `String(n)` is a non-empty string of digits without a leading zero |
| Text.ParseNatToString | organize_images.js:250-254 | a rendered count reads back as the count |
| Disk.FileSystem.CopyFile | organize_images.js:187 | a copy either fails with the error of its source (unreadable, then missing) or else of its target and changes nothing, or puts a file of the source's size at the target |
| Disk.FileSystem.Unlink | organize_images.js:197 | a removal either fails and changes nothing, or removes exactly that path |
| Disk.FileSystem.ReadText | organize_images.js:130 | a read fails on an unreadable or missing file, and otherwise returns its content |
| Disk.FileSystem.WriteText | organize_images.js:140 | a write fails on an unwritable path, and otherwise replaces exactly that file's content |
| Scanning.ScanWellFormed | organize_images.js:18-45 | every record found is an image file whose name is neither hidden nor `node_modules`, at its directory joined with its name; every error is a directory error |
| Scanning.ScanClean | organize_images.js:21-42 | the scan reports an error exactly when it reaches an unlistable directory or a name whose stat throws |
| Scanning.StopsAtUnstatable | organize_images.js:23-41 | a directory's walk stops exactly when a name it does not skip cannot be stat'ed |
| Scanning.ScanEndsAtUnstatable | organize_images.js:21-42 | the first failing stat ends the directory: no later name is looked at |
| Scanning.StoppedStays | organize_images.js:21-42 | once a stat has thrown, the later names change nothing |
| References.RewriteItemsOutcome | organize_images.js:125-151 | a code file is rewritten and recorded exactly once if it can be read and written and mentions the normalised old path; its new content is the literal replace-all; every other file is left alone; each record carries both normalised paths |
| References.RewriteItemEffect | organize_images.js:127-146 | one name either rewrites its file and adds one record, or changes neither |
| References.UntouchedContentKept | organize_images.js:134 | content that does not mention the old path is never changed nor recorded |
| Reporting.ReportLines | organize_images.js:246-270 | the report has 15 fixed lines plus one per rename, removal and code update, plus a heading and one line per error when there are errors |
| Reporting.SummaryCounts | organize_images.js:250-254 | each summary line states the length of the list it counts |
| Reporting.NoOriginalFiles | organize_images.js:250 | with no original files recorded the report says "- Original files found: 0" |
| Reporting.ErrorsSectionIff | organize_images.js:267-270 | the `## Errors` heading appears exactly when there are errors |
| Reporting.RenderReportSplits | organize_images.js:272 | when no entry holds a line break, the rendered report splits back into its lines |

## Left out

- `script.js`: browser wiring, with timers, the DOM and floating-point animation. It is not part of this model.
- The scan and the file-system calls are not modelled as real system calls. The tree is a fixed snapshot (`Disk.Listing`). Reading, writing and removing fail on fixed maps of faulty paths, or with an `ENOENT` message for a missing source. Node's other error messages are not modelled.
- Creating `images` and `images_backup` (organize_images.js:164-172) is not modelled. `mkdirSync` failing there is uncaught and ends the process.
- `console.log` output is left out. So is writing the report file and printing the summary (organize_images.js:276-289).
- The JavaScript RegExp engine. The escaped pattern at organize_images.js:136 is a literal global replace (`Text.ReplaceAll`). `$` patterns in the replacement string are not interpreted. Every path `organize` passes as a replacement holds no `$` (`Plan.NewPathIsPlain`), so for `organize` the model is exact. The date test at line 85 is a check of the first ten characters.
- Text encoding. `readFileSync(item, 'utf8')` (organize_images.js:130) decodes bytes as UTF-8 and turns invalid sequences into U+FFFD, which a later write keeps. The model holds each code file as its decoded text, so this lossy decoding is not modelled.
- Letter case and paths. `toLowerCase` is ASCII only. `path.join` is `/` joining, with `.` as the empty directory. `path.extname` takes the suffix from the last dot that is not the first character.
- Backup name clashes (organize_images.js:186) are not modelled apart from what the file map shows: a later copy overwrites an earlier one. The same holds for two survivors that get the same new name.
- The in-place group sort (organize_images.js:64-68) is the stable sort function `Sorting.SortByKey`, not an update of an array in place. Groups are values in the dictionary map, so aliasing between the dictionary and the group is not captured.
- The rename loop is split for the proof. The body of each loop over a directory, over the code files and over the survivors is a method of its own (`VisitItem`, `UpdateItem`, `RenameFile`).
- Steps.BackUpAllEffect: assumes that every scanned file exists in the file map. The exact error list holds for that case only; `Steps.BackUpAllKeeps` covers the general case.
- Steps.OrganizeOutcome: states the renames as a subsequence of the planned moves, not which ones fail. Which fail is fixed by `Steps.OrganizeSpec`, which `Organizer.ImageOrganizer.Organize` meets exactly.
- Steps.RenameAllEffect: states the recorded renames only as a subsequence of the attempted moves. Which moves are recorded is fixed per iteration by `Steps.RenameOneRecords`, and for a loop where nothing fails by `Steps.RenameAllFaultFree`; `Organizer.ImageOrganizer.RenameFiles` meets the fold `Steps.RenameAll` exactly.
- Scanning.ScanWellFormed: does not state that the scan visits every non-skipped name. `Organizer.ImageOrganizer.FindImageFiles` is instead tied exactly to the function `Scanning.Scan`.
