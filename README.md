# dazzlesum traversal and persistence core, in Dafny

This project models the engine of `dazzlesum.py`. That engine walks a directory tree, writes and reads digest files, and verifies files against them. The model covers these parts:

- **The loop-safe FIFO directory walker** (`FIFODirectoryWalker.walk_and_process`, `SymlinkHandler`, `count_dirs_and_files`), in `walker.dfy`.
  - The file system is an oracle `DirTree`: directory listings, `resolve()`, `stat()` identities, the link test, and whether a target exists.
  - The per-directory callback is represented only by whether it raises (`fails`).
  - `Walk` is a reference definition of the loop. The class methods are proved to follow it.
  - Lemmas about `Walk` state:
    - the callback runs at most once per identity;
    - the queue is FIFO;
    - a failing callback is isolated;
    - every listed sub-directory of a directory whose callback returned ends up marked visited.
  - A directory marked through a link that is not followed never gets a callback, even when a real directory shares its identity (see "## Findings"). `WalkPolicyFirst` asks the link policy before marking, and for it completeness is proved for callbacks.
- **The tree-wide ("monolithic") writer** (`MonolithicWriter`), in `monolithic_writer.dfy`.
  - It is a class with `isOpen` and `entriesWritten`.
  - The file system is a `Disk` value: file texts, directories, and unreadable files.
  - It covers `open`, `append_directory_checksums` and `close`.
  - `_atomic_replace`, including the Windows backup, restore and re-raise path, is a chain of fallible map updates. Any of its steps can be made to fail.
- **The per-directory `.shasum` format and the format detector**, in `digest_format.dfy` and `monolithic_format.dfy`.
  - Covers the writer, the shared reader (a Python dict, kept in insertion order) and `is_monolithic_file`.
  - The round-trip property is proved.
- **The verification engine** (`verify_checksums_in_directory`, `verify_monolithic_file`) and `write_shasum_file`, in `generator.dfy`.
  - The digest of a file is an oracle `hash(path, text)`.
  - Glob matching is an oracle `matches(path, pattern)`. `_should_include_file_simple` is modelled around it, in `include_filter.dfy`.
- **Shadow path mapping and resume planning** (`ShadowPathResolver`, `_initialize_resume_state`, `_should_skip_directory`), in `shadow.dfy` and `generator.dfy`.
  - Includes the fact that a skipped directory's sub-directories are still walked.
- **Small pure pieces**, in `line_endings.dfy` and `totals.dfy`:
  - `LineEndingHandler.normalize_content`;
  - `GrandTotals.add_directory_result`;
  - the exit-code ladder of `calculate_verification_status`.

Paths are sequences of components below the file-system root, and `PathString` renders them. Text is a sequence of characters. Reading a file as text applies Python's universal newlines: `"\r\n"` and a lone `"\r"` become `"\n"`. Writing follows POSIX: `"\n"` is written as is. Helper modules hold the Python built-ins the core relies on:

- `text.dfy`: `strip`, ASCII `lower`, `split`, `replace`, `str.join`, line splitting;
- `ordering.dfy`: `sorted` on strings, by code point;
- `paths.dfy`: `Path / str`, `relative_to`, `os.path.relpath`, `with_suffix`.

## Model

| member | source | states |
|---|---|---|
| IncludeFilter.ShouldIncludeFile | dazzlesum.py:1405-1425 | `.shasum` and `.dazzle-state.json` are never included. Any other file is included exactly when no exclude pattern matches it, and either there are no include patterns or one of them matches. |
| Walker.FollowedLinkIsSafe | dazzlesum.py:1558-1582 | A link is followed only when following is requested, its target resolves and exists, and the link does not lie inside its target. |
| Walker.FilterSubdirs | dazzlesum.py:1673-1677 | A path is queued from a listing exactly when it is a directory entry of that listing that is not yet visited. |
| Walker.FilterSubdirsAppend | dazzlesum.py:1673-1677 | Listing order is kept. Filtering two listings one after the other gives the first listing's queued directories, then the second's. Together with `FilterSubdirsOne`, this makes the result the order-preserving filter of the listing. |
| Walker.FilterSubdirsOne | dazzlesum.py:1673-1677 | A single entry is queued exactly when it is a directory that is not yet visited. |
| Walker.SymlinkHandler.constructor | dazzlesum.py:1505-1507 | Both visited sets start empty. |
| Walker.SymlinkHandler.MarkVisited | dazzlesum.py:1584-1599 | Records the resolved path, or the path itself when resolving fails. Records the (device, inode) pair when `stat` works. The path is visited afterwards. |
| Walker.FIFODirectoryWalker.constructor | dazzlesum.py:1627-1631 | An empty queue, a zero `processed_count`, a fresh handler with empty visited sets. |
| Walker.FIFODirectoryWalker.WalkAndProcess | dazzlesum.py:1633-1681 | After the loop the queue is empty. The callback invocations and visited sets equal those of the reference walk. `processed_count` grows by the number of calls that returned. |
| Walker.WalkCallsOncePerIdentity | dazzlesum.py:1642-1652 | The callback is invoked at most once per directory identity, both by resolved path and by inode. |
| Walker.WalkFifoAndFailureIsolation | dazzlesum.py:1654-1681 | Directories leave the queue in the order they entered it: the root, then each call's sub-directories in call order. A raising callback queues nothing and the walk goes on. Only directories the link policy allows reach the callback. |
| Walker.WalkComplete | dazzlesum.py:1670-1681 | In a recursive walk, every sub-directory of a directory whose callback returned ends up marked visited. Marked is not called back: a directory marked through a link that is not followed never gets a callback (`LinkMarkHidesTarget`). |
| Walker.LinkMarkHidesTarget | dazzlesum.py:1648-1656 | Links not followed; `root` lists a link `a` that resolves to its sibling `z`, then `z` itself. The whole walk makes one call, for `root`. `z` is an ordinary directory listed by a returning call and unvisited at the start, yet no call shares its identity. |
| Walker.HiddenTargetTreeFits | dazzlesum.py:1648-1656 | A concrete input for the finding: below any root, a link `a` that resolves to its sibling `z`, listed before `z`, with no inodes from stat. It has the shape `LinkMarkHidesTarget` requires. |
| Walker.PolicyFirstWalkComplete | dazzlesum.py:1642-1681 | With the link policy asked before marking, no two callbacks share an identity, and every sub-directory the policy allows, listed by a directory whose callback returned, was visited at the start or shares its identity with a directory the callback ran for. |
| Walker.WalkOkMatchesCallback | dazzlesum.py:1660-1668 | Each recorded call returned exactly when the callback did not raise for its directory. |
| Walker.ScanListing | dazzlesum.py:1389-1398 | One listing contributes the number of regular files the filter includes, and its unvisited sub-directories when recursive. |
| Walker.CountDirsAndFiles | dazzlesum.py:1353-1402 | Counts exactly the directories a never-raising walk would process, and the included regular files directly inside them. |
| DigestFormat.Put | dazzlesum.py:2310 | Assigning to a dict: a new key goes last, an existing key keeps its place and takes the new value. |
| DigestFormat.ParseLinesAppend | dazzlesum.py:2303-2310 | Reading lines `a` then `b` equals reading `b` after the dict that `a` produced. |
| DigestFormat.ShasumLinesRead | dazzlesum.py:2259-2269 | Reading back the written `.shasum` text gives exactly the written lines: header, sorted entries, end marker. |
| DigestFormat.ShasumRoundTrip | dazzlesum.py:2259-2310 | Take a dict with lowercase-hex hashes and one-line names that do not end in whitespace. Parsing what `write_shasum_file` writes for it gives back every name with its hash, keyed in sorted name order. |
| MonolithicFormat.MarkedLine | dazzlesum.py:1925-1928 | A line starting with `# Dazzle monolithic` carries the marker the detector looks for. |
| MonolithicFormat.MonolithicHeaderDetected | dazzlesum.py:1915-1943 | Any text that starts with the header `open()` writes is detected as tree-wide. |
| MonolithicFormat.ShasumDetection | dazzlesum.py:1915-1943 | A `.shasum` text whose header carries no marker is taken for tree-wide exactly when its first (smallest) name contains `/` or `\`. |
| MonolithicWriting.SiblingsDistinct | dazzlesum.py:1096 | The target, its `.tmp` sibling and its `.bak` sibling are three different paths. |
| MonolithicWriting.AtomicReplaceCommits | dazzlesum.py:1091-1117 | Without faults the replace returns. The target holds the source text, the source is gone, no backup remains on Windows, and the directories are unchanged. |
| MonolithicWriting.AtomicReplaceKeepsOld | dazzlesum.py:1093-1111 | When the replace raises, the old target text is still at the target or at `<name>.bak`. |
| MonolithicWriting.AtomicReplaceFailsCleanly | dazzlesum.py:1112-1117 | Off Windows, or when the target did not exist, a raising replace changes nothing. |
| MonolithicWriting.BackupUnlinkFailureAfterCommit | dazzlesum.py:1102-1111 | On Windows, when only removing the backup fails, the restore rename is refused. The replace raises, but the target already holds the new text and the old text stays at `<name>.bak`. |
| MonolithicWriting.AtomicReplaceMovesSource | dazzlesum.py:1091-1117 | A replace that returns has moved the source away. |
| MonolithicWriting.ResumeContent | dazzlesum.py:979-989 | Resuming: if the copied text ends with the end marker, the temp file holds exactly that text minus the one marker. Otherwise it holds the unchanged copy. |
| MonolithicWriting.ResumeAfterCommit | dazzlesum.py:979-989 | Resuming from a file `close()` committed takes off exactly the marker it added. |
| MonolithicWriting.AppendedLines | dazzlesum.py:1017-1030 | One `hash  relpath` line per name, in the given order. |
| MonolithicWriting.AppendedLineReadsBack | dazzlesum.py:1017-1030 | For a directory at or below the root, an appended line parses as its hash and a `/`-separated relative path. Joined onto the root, that path names the file, and its parent is the directory. |
| MonolithicWriting.CleanupTemp | dazzlesum.py:1083-1089 | Removes the temp file if present and touches nothing else. |
| MonolithicWriting.MonolithicWriter.constructor | dazzlesum.py:941-951 | The writer starts closed, with zero entries, and its temp path is the target name plus `.tmp`. |
| MonolithicWriting.MonolithicWriter.Open | dazzlesum.py:967-1009 | Open first makes the parent directories. Outcomes: (1) With an existing target outside resume mode and no permission, the call is cancelled without cleanup. (2) With an existing target in resume mode, the temp file is the target minus one end marker. (3) Otherwise the temp file holds the two header lines. (4) On an error (the `fails` oracle, a directory at the temp path, or an unreadable target in resume mode), the temp file is removed and the writer stays closed. The writer is open after every successful path, and no other file changes. |
| MonolithicWriting.MonolithicWriter.AppendDirectoryChecksums | dazzlesum.py:1011-1031 | Not open: RuntimeError, and nothing changes. Open: the temp file grows by one line per entry, in sorted name order, and `entriesWritten` grows by the number of entries. |
| MonolithicWriting.MonolithicWriter.Close | dazzlesum.py:1052-1081 | A no-op when not open. Otherwise it has the effect `CloseOutcome` describes. The writer is closed afterwards on every path. |
| MonolithicWriting.FormatEntries | dazzlesum.py:1017-1031 | The loop builds exactly `AppendedLines`. |
| MonolithicWriting.CloseOutcome | dazzlesum.py:1057-1081 | `close(success=False)` never raises. |
| MonolithicWriting.CloseCommits | dazzlesum.py:1057-1071 | Without faults, `close(success=True)` leaves the target holding the temp text plus one end marker, and no temp file. |
| MonolithicWriting.CloseDiscards | dazzlesum.py:1072-1074 | `close(success=False)` removes the temp file and leaves every other file, the target included, as it was. |
| MonolithicWriting.CloseLeavesNoTemp | dazzlesum.py:1052-1089 | Whatever faults occur, no temp file remains after `close`. |
| MonolithicWriting.CloseFailureKeepsOld | dazzlesum.py:1076-1079 | A `close` that raises keeps the old target text at the target or at `<name>.bak`. |
| LineEndings.NormalizeContent | dazzlesum.py:1479-1499 | `unix` and `auto` leave no carriage return. `preserve` and unknown strategies return the text unchanged. |
| LineEndings.CrlfReadBack | dazzlesum.py:1493-1497 | Text without carriage returns, written with `\r\n` line ends, reads back unchanged. |
| LineEndings.NormalizeIdempotent | dazzlesum.py:1479-1499 | Normalising twice equals normalising once, under every strategy. |
| LineEndings.UnixAfterWindows | dazzlesum.py:1493-1497 | Windows normalisation followed by Unix normalisation equals Unix normalisation alone. |
| VerifyResults.Classify | dazzlesum.py:543-570 | A result is a success iff nothing failed, went missing or is extra. It is partial iff only extra files exist. It is "no .shasum" iff it is an error whose message says so. |
| Totals.GrandTotals.constructor | dazzlesum.py:508-520 | All counters are zero. |
| Totals.GrandTotals.AddDirectoryResult | dazzlesum.py:537-570 | One more directory, counted in exactly the category `Classify` gives. A report adds its list sizes to the file counters. Processed stays equal to the sum of the categories. |
| Totals.VerificationStatus | dazzlesum.py:4027-4078 | Exit code 0 iff there are no extra files and either nothing was expected or the success percentage is 100. The code is always one of 0, 2-7. A percentage of zero or below gives 7. |
| Totals.ExitCodeMonotone | dazzlesum.py:4055-4078 | Up to 100, a higher success percentage never gives a worse exit code. |
| Shadow.ShadowShasumPath | dazzlesum.py:1967-1987 | ValueError iff the directory is not under the source root. Otherwise the path is the shadow root plus the relative path plus `.shasum`. |
| Shadow.SourceFilePath | dazzlesum.py:1989-1998 | A relative stored name resolves below the source root. |
| Shadow.ShadowMonolithicPath | dazzlesum.py:2008-2020 | The custom name below the shadow root, or `checksums.<algorithm>` there. |
| Shadow.ShadowRoundTrip | dazzlesum.py:2079-2086 | The resume scan maps a directory's shadow `.shasum` back to that directory. |
| Shadow.ShadowInjective | dazzlesum.py:1967-1987 | Different source directories get different shadow `.shasum` paths. |
| Shadow.ShadowLookupIgnoresDirectory | dazzlesum.py:2317-2318 | In shadow mode a stored name is looked up below the source root. For a directory strictly below the root, that is not the file in the directory being verified. |
| Generator.ClassifyEntries | dazzlesum.py:2315-2351 | A stored name is in `verified` iff it verifies, in `missing` iff nothing exists at its path, and among the `failed` names iff hashing raised or the hashes differ. So each stored name is in exactly one list. |
| Generator.CheckEntries | dazzlesum.py:2315-2351 | The loop over the stored dict builds exactly the three lists, in stored order. |
| Generator.CheckEntry | dazzlesum.py:2316-2351 | One stored entry is missing when nothing exists at its resolved path. It fails when hashing raises (a directory or an unreadable file) or when the hashes differ ignoring case, and verifies otherwise. |
| Generator.DirectoryVerification | dazzlesum.py:2282-2362 | Returns only an error when no `.shasum` exists, and fails with ValueError when shadow mapping fails. `extra` is the included current files minus the stored names. |
| Generator.DirectoryReportClassifies | dazzlesum.py:2301-2357 | For the dict read from the `.shasum` file, each stored name is placed by its status. Names resolve against the directory, or against the source root in shadow mode. |
| Generator.MonolithicVerification | dazzlesum.py:2364-2451 | A missing file gives only an error. The `verified`, `failed` and `missing` lists are those of the entries read from the file, resolved against the `root_directory` argument. `extra` is always empty. |
| Generator.MonolithicReportClassifies | dazzlesum.py:2409-2444 | Each entry of a readable tree-wide file lands in exactly one of `verified`, `missing` and `failed`, by its status against the root directory given. |
| MonolithicFormat.HeaderCarriesNothing | dazzlesum.py:2378-2394 | The two header lines of a tree-wide file are comments, so the file reads as the dict of its body alone. |
| MonolithicFormat.RecordedRootIgnored | dazzlesum.py:2378-2400 | The recorded `# Root directory:` has no effect on what is read. The same body under any other recorded root gives the same dict, so a clone verifies against the directory given. |
| Generator.WriteShasum | dazzlesum.py:2249-2280 | ValueError iff the shadow mapping fails. No other file changes, and only the shadow directories are created. Without a fault the `.shasum` path holds header, sorted entries and end marker. When `open` raises, or the path is a directory, nothing changes. When a write raises after `open`, the file holds a prefix of that text. |
| Generator.TruncatedDigestCountsAsDone | dazzlesum.py:2259-2280 | A write that raises after `open` still leaves a `.shasum` file, so the resume scan (dazzlesum.py:2089-2090) counts the directory as done. |
| Generator.WriteThenVerify | dazzlesum.py:2249-2362 | Write a directory's `.shasum` from the digests of exactly its included files, then verify the directory. Every name is verified, in sorted order, and nothing is failed, missing or extra. |
| Generator.WriteThenReport | dazzlesum.py:2249-2351 | After writing a directory's `.shasum` from the digests of its files, verification finds every name verified, in sorted order, and nothing failed or missing. |
| Generator.WriteThenNoExtra | dazzlesum.py:2249-2362 | Verification right after writing finds nothing extra when the digest lists exactly the included files. The new `.shasum` is not one of them. |
| Generator.IncludedIgnoresDigest | dazzlesum.py:1405-1412 | Writing a directory's `.shasum` does not change its set of included files, because that name is always excluded. |
| Generator.MonolithicMembers | dazzlesum.py:2098-2108 | Every data line of the tree-wide file puts its path and its directory into the resume sets. |
| Generator.EntryDirIsParent | dazzlesum.py:2104-2106 | The directory taken from a relative path is the parent of that path joined onto the root. |
| Generator.AppendedLineResumes | dazzlesum.py:2098-2108 | A line appended for a directory at or below the root reads back to exactly that directory. |
| Generator.ResumeFindsAppendedDirectory | dazzlesum.py:2098-2108 | Any directory with a line in the tree-wide file, footer or not, is in the resume set. |
| Generator.ScanMonolithicLines | dazzlesum.py:2098-2108 | The scan loop collects exactly the paths and directories of the data lines. |
| Generator.SkippedDirectoriesStillDescended | dazzlesum.py:2551-2558 | The skip happens inside the callback, which returns normally. So a skipped directory's sub-directories are still visited in a recursive walk. |
| Generator.ChecksumGenerator.constructor | dazzlesum.py:2026-2062 | The algorithm is lower-cased. The excludes are the given ones or the two reserved names, plus the tree-wide file's `.tmp` name when one is generated. The resume sets start empty. |
| Generator.ChecksumGenerator.InitializeResumeState | dazzlesum.py:2068-2115 | Outside resume mode nothing changes. In resume mode, the processed set gains the directories holding `.shasum` files (when writing them) and the directory of every data line of a readable tree-wide file. |
| Generator.ChecksumGenerator.VerifyChecksumsInDirectory | dazzlesum.py:2282-2362 | Computes exactly `DirectoryVerification`. |
| Generator.ChecksumGenerator.VerifyMonolithicFile | dazzlesum.py:2364-2451 | Computes exactly `MonolithicVerification`. |

## Findings

| source | as written | input that shows it | evidently intended | confidence | as-written member | corrected member |
|---|---|---|---|---|---|---|
| dazzlesum.py:1648-1656 | `mark_visited` runs before `should_follow_link`, so a link that is not followed still records its target's resolved path and inode. A real directory dequeued later with that identity is skipped as a loop, and so is its subtree. `count_dirs_and_files` (dazzlesum.py:1378-1384) has the same order. | `follow_symlinks=False`; the root lists a link `a` resolving to its sibling `z`, then `z` (`HiddenTargetTree`, which `HiddenTargetTreeFits` shows has this shape) | ask the link policy before marking, so every real directory reaches the callback exactly once | medium; not executed | Walker.LinkMarkHidesTarget | Walker.PolicyFirstWalkComplete |

The walker class and `CountDirsAndFiles` keep the order as written, because that is what the program does. `WalkPolicyFirst` is the corrected reference walk.

## Left out

- Hashing itself (hashlib, the native-tool adapters) is the oracle `hash(path, text)`. Line-ending normalisation before hashing is part of that oracle. `normalize_content` is modelled separately on decoded text; its decode fallbacks (UTF-8, then Latin-1, then raw bytes) are not modelled.
- The real file system is not modelled. `resolve()`, `stat()` and `iterdir()` in the walker are oracles. `Path.match` is the `matches` oracle. `rglob` is a set comprehension over the `Disk`, so iteration order is unspecified. Symlinks and `..` are not resolved in the `Disk` paths. `.resolve()` in `_should_skip_directory` is the walker's `Key`.
- A directory that cannot be listed is all-or-nothing: either the whole listing is known or listing raises before any entry.
- Exception texts inside error messages are left out. The messages keep their fixed prefixes.
- Logging, progress tracking, `flush`/`fsync`, and the `SummaryCollector` call are not modelled.
- MonolithicWriting.MonolithicWriter.Open: `mkdir` failing is folded into `fails`. The overwrite prompt is the `answer` oracle. A failed copy leaves no partial temp file. The cancelled path does no cleanup, because KeyboardInterrupt is not an `Exception`. When a directory sits at the temp path in resume mode, `copy2` puts a copy inside that directory before `open` raises. That stray copy is not modelled.
- MonolithicWriting.MonolithicWriter.AppendDirectoryChecksums: a write error in the middle of the entries is not modelled. `entriesWritten` grows by the number of entries at once rather than line by line. The Windows-only ValueError fallback for paths on another drive is not modelled.
- MonolithicWriting.MonolithicWriter.Close: a failure of `_cleanup_temp` is swallowed by the source and is not modelled.
- MonolithicWriting.Rename: the unreadable flag of a file does not move with it.
- Generator.WriteShasum: a failing `mkdir` of the shadow directory raises in the source but is not modelled. How much of the text reaches the file before a write raises is the `kept` count of the fault, not buffering behaviour. A file that could not be read before the write stays marked unreadable after it.
- Generator.MonolithicVerification: on Windows the source turns `/` into `\` in stored paths. The model follows POSIX, where that replacement changes nothing. The recorded root is used only for a log message, which is not modelled.
- Generator.ChecksumGenerator.constructor: the source appends the `.tmp` name to the caller's own exclude list (aliasing). The model builds a new sequence.
- `existing_monolithic_entries` is filled by the resume scan and never read, so it has no effect anywhere. `_should_skip_directory` and `_get_monolithic_path` are modelled as `ShouldSkipDirectory` and `MonolithicPath` without contracts of their own; their use is covered by `SkippedDirectoriesStillDescended` and `InitializeResumeState`.
- Totals.VerificationStatus takes the rounded success percentage as an input. The float `round()` and the percentage texts of the label are not modelled.
- `lower()` is ASCII-only. Unicode case mapping, encodings and decode errors are not modelled.
- GrandTotals timing, throughput and display, `ShasumManager`, the CLI, the logger and all presentation code are outside this model.
