# pitou-core, modelled in Dafny

This project models the core of `pitou-core`, the shared library of the
Pitou file explorer. It covers:

- the search name matcher (`SearchType`) and its ASCII case-insensitive
  byte tests;
- the decoding of the front end's numeric search kind, the kind filter
  (`SearchFilter`) and the two search option records;
- the entry filter each traversal task applies (`SearchVariables::include`);
- the search session: a process-wide slot that holds the finds not yet read,
  plus the list of spawned traversal tasks. Both the backend revision and the
  older `search::ops` revision are modelled;
- the clipboard stack in its backend revision and its older `fs_ops` revision;
- the front end's selection set keyed by `VWrapper`, and a tab's
  search-results buffer;
- `PitouFileWrapper` equality and hash;
- the hand-written serde rules for paths and file sizes;
- the small value rules of `PitouFile`, `PitouFilePath` and `PitouFileSize`:
  the kind predicates, `name`, `ancestors`, the conversions, and equality and
  hash.

Modules follow the source files:

| Module | Source |
|---|---|
| `Prim` | machine integers, `Option`, reversal, the UTF-8 encoding behind `as_bytes` |
| `Files` | `lib.rs`, `extra.rs` |
| `Pattern` | `search/mod.rs`. The byte tests are duplicated verbatim at `backend/search.rs:7-75`, and this one model stands for both copies. |
| `EntryFilter` | the `SearchVariables` conversion and `include`, which `backend/search.rs` and `search/ops.rs` share |
| `BackendSearch` | `backend/search.rs` |
| `OpsSearch` | `search/ops.rs` |
| `Clipboard` | `backend/fs_ops/mod.rs` |
| `LegacyClipboard` | `fs_ops/mod.rs` |
| `Frontend` | `frontend/mod.rs` |
| `FrontendExtra` | `frontend/extra.rs` |
| `SerDe` | `ser_de.rs` |

Values become datatypes and functions. Each mutex-guarded static becomes a
class whose fields hold the guarded value, and each locked operation becomes
one method with a `modifies` clause. The same goes for the front end's
`RefCell`s. The model makes these choices:

- **Strings and bytes.** Strings are `seq<char>`. The matcher works on their
  UTF-8 bytes, as the Rust code does with `as_bytes()`.
- **Paths.** Paths are their text, with `/` as the separator. Rust compares
  paths component by component, and `ComponentsOf` models that comparison.
- **The regex engine and `Path::ancestors`.** Both come from other libraries.
  They are passed in as function parameters:
  - `compile` stands for `regex::Regex::new`;
  - `Regex` is kept only as its `is_match` predicate;
  - `stdAncestors` stands for `Path::ancestors`.
- **Task handles.** A `JoinHandle` is an opaque id. `abort` and
  `wait_for_all_ops` return the order in which they visit the handles.

## Model

| member | source | states |
|---|---|---|
| Pattern.FoldEqIff | src/search/mod.rs:51-53 | two bytes fold alike iff they are equal or one is the lower-case letter of the other; bytes outside `a`..`z` are unchanged; folding is idempotent and leaves no lower-case letter |
| Pattern.StartsWithIgnoreCaseIsFolded | src/search/mod.rs:45-55 | `starts_with_ignore_case` holds iff the folded key is a prefix of the folded input |
| Pattern.EndsWithIgnoreCaseIsFolded | src/search/mod.rs:57-70 | `ends_with_ignore_case`, comparing from the back, holds iff the folded key is a suffix of the folded input |
| Pattern.ContainsIgnoreCaseIsFolded | src/search/mod.rs:72-84 | the scan over every start offset holds iff the folded key occurs in the folded input |
| Pattern.IgnoreCaseBoundaries | src/search/mod.rs:46-48 | all three ignore-case tests are false when the key is longer than the input and true for the empty key |
| Pattern.SensitiveHitsFoldedHits | src/search/mod.rs:18-43 | every case-sensitive prefix, suffix or substring hit is also a case-insensitive hit |
| Pattern.EndsWithIgnoreCaseAscii | src/search/mod.rs:57-70 | on ASCII strings, the suffix test holds when the folded code points agree from the end |
| Pattern.EndsWithIgnoreCaseExample | src/search/mod.rs:98-103 | the unit test: key `CvbnM<>?` is a case-insensitive suffix of `zXcVbNm<>?` |
| Pattern.MatchesCaseModes | src/search/mod.rs:18-43 | a sensitive match implies an insensitive one; the regex variant ignores the flag; ignoring case is the byte-wise prefix, substring or suffix test on folded bytes |
| Pattern.ParseRegexDecodes | src/search/mod.rs:86-95 | kinds 0, 1 and 2 decode to the begin, end or middle variant with the key and invert `SearchKind`; decoding fails iff the kind is above 2 and the key does not compile; otherwise the result is the compiled regex |
| Pattern.AllFilteredIffNoKind | src/search/mod.rs:111-143 | `all_filtered` holds iff no kind is enabled; `new` enables exactly files and directories; `include_all` enables every kind |
| Pattern.TryInto | src/search/mod.rs:173-189 | the conversion fails iff decoding the kind fails; otherwise it carries the decoded pattern and every other field unchanged |
| Pattern.DefaultsDecode | src/search/mod.rs:159-171 | the defaults give a case-sensitive suffix search for the empty key; it matches every name and enables every kind |
| Pattern.NewSearchOptionsShape | src/search/mod.rs:205-216 | `SearchOptions::new` is a case-sensitive substring search over files and directories, not links, with `usize::MAX` as the cap |
| EntryFilter.ConversionDropsOnlyTwoFields | src/backend/search.rs:153-176 | the conversion copies filter, case flag, depth, pattern, error flag and directory; options differing only in `hardware_accelerate` or `max_finds` convert alike. The same holds for the conversion at src/search/ops.rs:65-88. That revision differs in two ways that the model does not see. Its filter type is `FileFilter` (src/search/ops.rs:58) rather than `PitouFileFilter` (src/backend/search.rs:146), and both are modelled as `SearchFilter`. It takes the directory as `search_dir.path` rather than `search_dir.path.path.clone()`, and both are the same path text here |
| EntryFilter.IncludeIff | src/backend/search.rs:179-184 | an entry is included iff it has metadata, its kind is enabled, and its name matches the pattern under the case flag; an entry without metadata never is. The same holds for the rule at src/search/ops.rs:91-96. That rule reads the `FileFilter` fields, and the backend rule reads the same fields of `PitouFileFilter`; both filter types are modelled as `SearchFilter` |
| EntryFilter.AllFilteredIffNothingPasses | src/search/mod.rs:128-130 | `all_filtered` holds iff no entry of any kind passes the kind test |
| EntryFilter.AllFilteredIncludesNothing | src/backend/search.rs:191-193 | when `search` short-circuits, no entry could have been included |
| BackendSearch.Stream.IsActive | src/backend/search.rs:97-99 | active iff a buffer is present |
| BackendSearch.Stream.TerminateStream | src/backend/search.rs:101-103 | the buffer is dropped; the handles are untouched |
| BackendSearch.Stream.BeginStream | src/backend/search.rs:105-107 | the buffer is fresh and empty, replacing any earlier one |
| BackendSearch.Stream.Read | src/backend/search.rs:109-116 | while active, it returns every buffered find in write order and empties the buffer; when inactive, it returns `Terminated` with nothing and changes nothing |
| BackendSearch.Stream.Write | src/backend/search.rs:118-124 | while active, the find is appended at the back; when inactive, nothing changes |
| BackendSearch.Stream.AppendHandle | src/backend/search.rs:126-128 | the handle is appended at the back |
| BackendSearch.Stream.TakeHandlesNewestFirst | src/backend/search.rs:131 | `split_off(0)` then `rev`: the list is emptied, and the k-th handle returned is the k-th from the end of the old list |
| BackendSearch.Stream.Abort | src/backend/search.rs:130-134 | every handle is aborted, newest first, and the list is emptied |
| BackendSearch.Stream.WaitForAllOps | src/backend/search.rs:136-140 | every handle is awaited, newest first, and the list is emptied |
| BackendSearch.ReadTwice | src/backend/search.rs:109-116 | a second read with no write between returns an empty active batch, or `Terminated` again |
| BackendSearch.Search | src/backend/search.rs:188-194 | the traversal is started iff the filter is not all-filtered; starting opens a fresh session; otherwise nothing changes |
| BackendSearch.FinishSearch | src/backend/search.rs:196-200 | the session ends; with `hardware_accelerate` every handle is then awaited newest first, otherwise the handles are kept |
| OpsSearch.Stream.TerminateStream | src/search/ops.rs:31-33 | the buffer is dropped |
| OpsSearch.Stream.BeginStream | src/search/ops.rs:35-37 | the buffer is fresh and empty |
| OpsSearch.Stream.Read | src/search/ops.rs:39-41 | it returns the whole buffer or `None`, and leaves an active buffer empty |
| OpsSearch.Stream.Write | src/search/ops.rs:43-53 | `Success` iff active, in which case the find is appended; otherwise `StreamTerminated` and nothing changes |
| OpsSearch.Search | src/search/ops.rs:100-105 | it starts iff the filter is not all-filtered, opening a fresh session |
| OpsSearch.FinishSearch | src/search/ops.rs:106-109 | the session ends when the traversal returns |
| Clipboard.ClipboardStack.Copy | src/backend/fs_ops/mod.rs:32-37 | pushes `Copied(files)` on top and keeps the rest |
| Clipboard.ClipboardStack.Cut | src/backend/fs_ops/mod.rs:39-44 | pushes `Cut(files)` on top and keeps the rest |
| Clipboard.ClipboardStack.RemoveFromClipboard | src/backend/fs_ops/mod.rs:46-48 | needs an index in range; deletes exactly that position and keeps the order of the rest |
| Clipboard.ClipboardStack.ClearClipboard | src/backend/fs_ops/mod.rs:50-52 | the stack is empty |
| Clipboard.ClipboardStack.IsEmpty | src/backend/fs_ops/mod.rs:54-56 | true iff the stack has no item |
| Clipboard.ClipboardStack.Paste | src/backend/fs_ops/mod.rs:58-71 | empty: `None`, no change. Otherwise it returns the top item with its own tag, and the stack becomes `AfterPaste` |
| Clipboard.AfterPasteProperties | src/backend/fs_ops/mod.rs:61-67 | after a paste, the length is kept, the lower items are untouched and the top is `Copied` with the same files; a second paste changes nothing more |
| Clipboard.CutThenPasteTwice | src/backend/fs_ops/mod.rs:39-71 | after a cut, the first paste returns the `Cut` and the second a `Copied` of the same files |
| LegacyClipboard.ClipboardStack.Copy | src/fs_ops/mod.rs:24-26 | pushes `Copied(files)` on top |
| LegacyClipboard.ClipboardStack.Cut | src/fs_ops/mod.rs:28-30 | pushes `Cut(files)` on top |
| LegacyClipboard.ClipboardStack.RemoveFromClipboard | src/fs_ops/mod.rs:32-34 | needs an index in range; deletes exactly that position |
| LegacyClipboard.ClipboardStack.ClearClipboard | src/fs_ops/mod.rs:36-38 | the stack is empty |
| LegacyClipboard.ClipboardStack.Paste | src/fs_ops/mod.rs:40-53 | empty: `None`, no change. Otherwise it returns the top item's files whatever its tag, and the top becomes `Copied` of them |
| Files.KindPredicates | src/lib.rs:132-149 | no kind predicate holds without metadata; with metadata exactly the one for the recorded kind holds; the three are mutually exclusive |
| Files.ConversionsPreserve | src/extra.rs:4-14 | `From<u64>` keeps the byte count and agrees with `PitouFileSize::new` (src/lib.rs:81-83); `From<PathBuf>` keeps the path; both are injective |
| Files.FileEqIsEquivalence | src/extra.rs:22-26 | file equality is an equivalence that compares paths and ignores metadata |
| Files.PathHashDependsOnlyOnText | src/extra.rs:16-20 | the path hash is a function of the path text, namely its bytes, one per character for ASCII |
| Files.PathHashDisagreesWithEq | src/extra.rs:16-20 | `a/b` and `a/b/` are equal paths whose hash bytes differ |
| Files.PathHashKeyRespectsEq | src/extra.rs:16-20 | with the component key, paths are equal iff their keys are |
| Files.FileName | src/lib.rs:21-26 | the name is the last component when that component is a name, and empty when the path ends in root, `.` or `..` or has no components |
| Files.Ancestors | src/lib.rs:32-41 | the loop builds `AncestorList` of what `Path::ancestors` yields: it stops at the first empty ancestor and pushes each one to the front |
| Files.AncestorsShape | src/lib.rs:32-41 | no listed ancestor is empty; there are no more than the standard iterator yields; a path with a non-empty first ancestor lists itself last |
| Files.AncestorsOfRelative | src/lib.rs:32-41 | for a relative path joined from valid names (non-empty, no separator, and `.` allowed only as the first name), the list is every leading prefix of the names, shortest first |
| Files.TrailingSeparatorIgnored | src/lib.rs:21-26 | adding a trailing separator to a non-empty path changes neither its components nor its name, so `p` and `p/` are equal paths |
| Frontend.WrapperEqIsEquivalence | src/frontend/mod.rs:171-189 | `VWrapper` equality is an equivalence and never relates different variants |
| Frontend.HashKeyRespectsEqWhereConsistent | src/frontend/mod.rs:158-187 | for folders and first ancestors, equal wrappers always have equal hash bytes; for drives and full paths, only when the paths are the same text |
| Frontend.TrashItemEqButHashDiffers | src/frontend/mod.rs:165 | two trash items with the same original path and different ids are equal but hash differently |
| Frontend.FullPathEqButHashDiffers | src/frontend/mod.rs:164 | full paths `a/b` and `a/b/` are equal but hash differently |
| Frontend.ConsistentKeyRespectsEq | src/frontend/mod.rs:158-187 | with the corrected key, equal wrappers always share a key |
| Frontend.InsertedProperties | src/frontend/mod.rs:126-128 | after `insert(x)`, `x` is found and nothing is lost; an item is found iff it was found before or is hit by `x`; the set invariant is kept |
| Frontend.WithoutMembers | src/frontend/mod.rs:114-116 | `remove(x)` keeps exactly the elements `x` does not hit |
| Frontend.WithoutNoDup | src/frontend/mod.rs:114-116 | `remove` keeps the set invariant |
| Frontend.WithoutFinds | src/frontend/mod.rs:114-124 | after `remove(x)`, nothing `x` hits is found, and every other lookup answers as before |
| Frontend.TrashSelectionAsWritten | src/frontend/mod.rs:165 | after selecting one trash item, an equal one is not reported selected, and selecting it too keeps both |
| Frontend.CorrectedSelectionFindsEqual | src/frontend/mod.rs:158-187 | with the corrected key, selecting an item makes every equal item selected |
| Frontend.StaticData.UpdateDrives | src/frontend/mod.rs:110-112 | the drive list is replaced; the selections are untouched |
| Frontend.StaticData.ClearSelection | src/frontend/mod.rs:114-116 | the selections become `Without(item)`, keeping the set invariant |
| Frontend.StaticData.ClearAllSelections | src/frontend/mod.rs:118-120 | no selection is left |
| Frontend.StaticData.IsSelected | src/frontend/mod.rs:122-124 | true iff some selection has the item's hash bytes and equals it |
| Frontend.StaticData.AddSelection | src/frontend/mod.rs:126-128 | the selections become `Inserted(item)`, keeping the set invariant |
| Frontend.SelectAskClear | src/frontend/mod.rs:114-128 | after adding `x`, `x` is selected; after clearing it, it is not; an item not equal to `x` answers as the insert left it |
| Frontend.AppendedProperties | src/frontend/mod.rs:54-58 | appending creates the buffer when it is absent and extends it at the back otherwise; two appends equal one append of both batches |
| Frontend.TabCtx.AppendSearchResults | src/frontend/mod.rs:54-58 | the results become `Appended(old results, items)` |
| Frontend.TabCtx.UpdateSearchResults | src/frontend/mod.rs:50-52 | the results are overwritten wholesale |
| FrontendExtra.WrapperEqProperties | src/frontend/extra.rs:9-15 | two wrappers are equal iff their files' paths are equal, and this equality is an equivalence |
| FrontendExtra.WrapperHashDependsOnlyOnPath | src/frontend/extra.rs:17-21 | the hash ignores metadata and depends only on the path text |
| FrontendExtra.EqualWrappersMayHashApart | src/frontend/extra.rs:9-21 | wrappers around `a/b` and `a/b/` are equal but hash differently |
| FrontendExtra.ConsistentHashRespectsEq | src/frontend/extra.rs:9-21 | with the component hash, wrappers are equal iff their hashes are |
| SerDe.SerializePathProperties | src/ser_de.rs:56-66 | same length, same characters in the same places except that each separator becomes char 28; no separator remains, so serialising twice equals serialising once |
| SerDe.AbsolutePathDoesNotRoundTrip | src/ser_de.rs:69-71 | every absolute path comes back relative, so it is not equal to the original |
| SerDe.SeparatorPathDoesNotRoundTrip | src/ser_de.rs:69-71 | no path that contains a separator comes back as itself |
| SerDe.RestoringRoundTrip | src/ser_de.rs:56-71 | with char 28 mapped back, every path free of char 28 round-trips exactly |
| SerDe.FileSizeRoundTrip | src/ser_de.rs:29-40 | a file size serialises as its byte count and round-trips both ways |

## Left out

- How `recursive_search` walks the tree (src/backend/search.rs:205-228,
  src/search/ops.rs:112 onward) is not modelled: reading directories,
  spawning a task per sub-directory, the depth countdown, and the early
  return when depth is 0 or the session is inactive. It is file-system I/O
  and task spawning. What decides each entry is modelled by
  `EntryFilter.Include`, and what each step does to the session is modelled
  by the `Stream` methods.
- `max_finds` is carried through the option records but never enforced by
  the traversal, and it is not modelled beyond that.
- The regex engine is a parameter; nothing is proved about regular
  expressions.
- Concurrency is not modelled. Each locked step is one atomic method, and
  interleavings of tasks are not explored. What `abort` and the awaits do to
  a task is outside the model. Only the order in which handles are visited
  is kept.
- Files.FileName: `Path::file_name` is modelled on the components: the last
  name, or empty for `.` / `..` / root. `PitouFile::name` unwraps on a path
  with no final name and panics; the `VWrapper` keys and the entry filter
  use the empty name there instead.
- Files.Ancestors: `Path::ancestors` is a parameter. Only the prefix shape
  of its output for relative paths is derived, in `AncestorsOfRelative`.
- Paths that are not valid UTF-8 are not modelled (the `to_str().unwrap()`
  in `serialize_pathbuf` and `name`), and neither is the Windows separator.
- Frontend.StaticData: the `HashSet` is a sequence with its invariant. Two
  different key byte strings are taken to land in different buckets, so
  hash collisions and iteration order are not modelled.
- Frontend.TabCtx: only the `search_results` cell is modelled. The other
  cells, `update_cur_dir` and `FolderTracker`, are not part of this model,
  and neither are `GenCtx` and its defaults.
- `GeneralFolder` is defined outside these files and is kept only as its
  `o_name` string.
- The `TabCtx` serde impls (src/ser_de.rs:6-27) refer to fields and a
  constructor that the struct does not have, so they are not modelled.
- `PitouFileSize::format` is left out: it uses floating-point division.
- The file-system operations of `backend/fs_ops` are left out: trash,
  delete, rename, `paste(dir)` copying or moving with `fs_extra`, drives
  and general folders. They are all I/O.

## Findings

| source | as written | input that shows it | evidently intended | confidence | as-written member | corrected member |
|---|---|---|---|---|---|---|
| src/extra.rs:16-20 | the path hash writes the raw path bytes, while path equality compares components | `a/b` and `a/b/` are equal but hash differently | equal paths hash alike, for example by hashing the components as the standard path hash does | high, not executed | Files.PathHashDisagreesWithEq | Files.PathHashKeyRespectsEq |
| src/frontend/mod.rs:165 | a `TrashItem` hashes its `metadata.id` but compares its `original_path` | two trash items with original path `a` and ids `1` and `2`: equal, yet after selecting one the other is not selected | equality and hash use the same field | high, not executed | Frontend.TrashSelectionAsWritten | Frontend.CorrectedSelectionFindsEqual |
| src/ser_de.rs:69-71 | paths are read back as written, with no mapping of char 28 back to the separator | `/a` is written as char 28 then `a`, which reads back as a relative one-component path | reading undoes the separator mapping | high, not executed | SerDe.AbsolutePathDoesNotRoundTrip | SerDe.RestoringRoundTrip |
| src/frontend/mod.rs:161-164 | `Drive` and `FullPath` wrappers hash the raw path bytes, while their equality compares paths component by component | full paths `a/b` and `a/b/` are equal but hash differently | equal wrappers hash alike | medium, not executed (this reading takes `as_bytes` on the path to be its raw bytes; that method is not in the source files of this model) | Frontend.FullPathEqButHashDiffers | Frontend.ConsistentKeyRespectsEq |
