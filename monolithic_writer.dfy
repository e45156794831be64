/**
 * MonolithicWriter: builds the tree-wide digest file in a `.tmp` sibling and
 * commits it over the target by rename when closed successfully. The file
 * system is a Disk value each operation takes and gives back.
 */
module MonolithicWriting {
  import opened Wrappers
  import opened Text
  import opened Constants
  import opened Ordering
  import opened Paths
  import opened Disks
  import opened DigestFormat
  import opened MonolithicFormat

  // ------------------------------------------------------------ file moves

  /**
   * Path.rename: fails (None) when the step faults, the source is not a
   * regular file, the destination is a directory, or (on Windows) the
   * destination exists at all; POSIX replaces an existing file.
   */
  function Rename(d: Disk, src: Path, dst: Path, windows: bool, fault: bool): (r: Option<Disk>)
    ensures r.Some? <==> !fault && src in d.files && dst !in d.dirs && !(windows && Exists(d, dst))
    ensures r.Some? ==> r.value.files == (d.files - {src})[dst := d.files[src]] && r.value.dirs == d.dirs
  {
    if fault || src !in d.files || dst in d.dirs || (windows && Exists(d, dst)) then None
    else Some(d.(files := (d.files - {src})[dst := d.files[src]]))
  }

  /** Path.unlink: fails when the step faults or there is no regular file to remove. */
  function Unlink(d: Disk, p: Path, fault: bool): (r: Option<Disk>)
    ensures r.Some? <==> !fault && p in d.files
    ensures r.Some? ==> r.value == RemoveFile(d, p)
  {
    if fault || p !in d.files then None else Some(RemoveFile(d, p))
  }

  /** The file steps of _atomic_replace, any of which may raise. */
  datatype Step = StaleBackupUnlink | TargetToBackup | TempToTarget | BackupUnlink | BackupRestore

  /** What a file operation left behind, and whether it returned normally. */
  datatype Outcome = Outcome(disk: Disk, ok: bool)

  function Backup(dst: Path): Path
  {
    WithNameSuffix(dst, ".bak")
  }

  /** The except branch: put the backup back if there is one, then re-raise. */
  function Restore(d: Disk, dst: Path, faults: set<Step>): Outcome
  {
    var backup := Backup(dst);
    if Exists(d, backup) then
      match Rename(d, backup, dst, true, BackupRestore in faults)
      case Some(e) => Outcome(e, false)
      case None => Outcome(d, false)
    else Outcome(d, false)
  }

  /**
   * _atomic_replace(src, dst). On Windows an existing target is first renamed
   * to `<name>.bak` (after removing a stale one), the source renamed onto the
   * target and the backup removed; if either of the last two raises, the
   * backup is renamed back and the error re-raised. Elsewhere one rename.
   */
  function AtomicReplace(d: Disk, src: Path, dst: Path, windows: bool, faults: set<Step>): Outcome
  {
    if windows && Exists(d, dst) then
      var backup := Backup(dst);
      var cleared := if Exists(d, backup) then Unlink(d, backup, StaleBackupUnlink in faults) else Some(d);
      match cleared
      case None => Outcome(d, false)
      case Some(d1) =>
        match Rename(d1, dst, backup, true, TargetToBackup in faults)
        case None => Outcome(d1, false)
        case Some(d2) =>
          match Rename(d2, src, dst, true, TempToTarget in faults)
          case None => Restore(d2, dst, faults)
          case Some(d3) =>
            match Unlink(d3, backup, BackupUnlink in faults)
            case None => Restore(d3, dst, faults)
            case Some(d4) => Outcome(d4, true)
    else
      match Rename(d, src, dst, windows, TempToTarget in faults)
      case None => Outcome(d, false)
      case Some(d1) => Outcome(d1, true)
  }

  /** The three names involved: target, `.tmp` sibling and `.bak` sibling. */
  predicate Siblings(src: Path, dst: Path)
  {
    dst != [] && src == WithNameSuffix(dst, ".tmp")
  }

  lemma SiblingsDistinct(src: Path, dst: Path)
    requires Siblings(src, dst)
    ensures src != dst && Backup(dst) != dst && Backup(dst) != src
  {
    var n := Name(dst);
    assert Name(src) == n + ".tmp" && Name(Backup(dst)) == n + ".bak";
    assert (n + ".tmp")[|n| + 1] != (n + ".bak")[|n| + 1];
  }

  /** Whether the target and the backup name are free of directories, as a successful replace needs. */
  predicate NoDirsInTheWay(d: Disk, dst: Path)
  {
    dst !in d.dirs && Backup(dst) !in d.dirs
  }

  /**
   * Without faults the replace commits: the target holds what the source
   * held, the source is gone, and no backup is left behind on Windows.
   */
  lemma AtomicReplaceCommits(d: Disk, src: Path, dst: Path, windows: bool)
    requires Siblings(src, dst) && src in d.files && NoDirsInTheWay(d, dst)
    ensures var o := AtomicReplace(d, src, dst, windows, {});
      && o.ok
      && dst in o.disk.files && o.disk.files[dst] == d.files[src]
      && src !in o.disk.files
      && (windows && Exists(d, dst) ==> Backup(dst) !in o.disk.files)
      && o.disk.dirs == d.dirs
  {
    SiblingsDistinct(src, dst);
  }

  /**
   * When the replace raises, the old target text is not lost: it is still
   * at the target or it is at the backup name.
   */
  lemma AtomicReplaceKeepsOld(d: Disk, src: Path, dst: Path, windows: bool, faults: set<Step>)
    requires Siblings(src, dst) && dst in d.files
    ensures var o := AtomicReplace(d, src, dst, windows, faults);
      !o.ok ==>
        (dst in o.disk.files && o.disk.files[dst] == d.files[dst]) ||
        (Backup(dst) in o.disk.files && o.disk.files[Backup(dst)] == d.files[dst])
  {
    SiblingsDistinct(src, dst);
  }

  /**
   * When the target did not exist, or off Windows, a replace that raises
   * changes nothing.
   */
  lemma AtomicReplaceFailsCleanly(d: Disk, src: Path, dst: Path, windows: bool, faults: set<Step>)
    requires !(windows && Exists(d, dst))
    ensures var o := AtomicReplace(d, src, dst, windows, faults);
      !o.ok ==> o.disk == d
  {
  }

  /**
   * On Windows, if only removing the backup fails, the restore rename is
   * refused because the target already exists: the replace raises although
   * the target holds the new text, and the old text stays at `<name>.bak`.
   */
  lemma BackupUnlinkFailureAfterCommit(d: Disk, src: Path, dst: Path)
    requires Siblings(src, dst) && src in d.files && dst in d.files && NoDirsInTheWay(d, dst)
    ensures var o := AtomicReplace(d, src, dst, true, {BackupUnlink});
      && !o.ok
      && dst in o.disk.files && o.disk.files[dst] == d.files[src]
      && Backup(dst) in o.disk.files && o.disk.files[Backup(dst)] == d.files[dst]
  {
    SiblingsDistinct(src, dst);
  }

  // ------------------------------------------------------------ contents

  /**
   * What open() leaves in the temp file when resuming: the copy is read with
   * universal newlines; if that text ends with the end marker, it is written
   * back without that one marker; otherwise the byte-for-byte copy stays.
   */
  function ResumeContent(content: string): (r: string)
    ensures EndsWith(UniversalNewlines(content), Footer) ==> r + Footer == UniversalNewlines(content)
    ensures !EndsWith(UniversalNewlines(content), Footer) ==> r == content
  {
    var u := UniversalNewlines(content);
    if EndsWith(u, Footer) then u[..|u| - |Footer|] else content
  }

  /** Resuming from a committed file takes off exactly the one end marker close() added. */
  lemma ResumeAfterCommit(body: string)
    requires '\r' !in body
    ensures ResumeContent(body + Footer) == body
  {
    assert '\r' !in Footer;
    UniversalNewlinesWithoutCr(body + Footer);
    assert (body + Footer)[|body|..] == Footer;
  }

  /** The path text written for one file: relpath from the root, backslashes turned into slashes. */
  function EntryPath(directory: Path, name: string, root: Path): string
  {
    ReplaceChar(RelPath(JoinStr(directory, name), root), '\\', '/')
  }

  /** The lines append_directory_checksums writes for the given names, in the given order. */
  function AppendedLines(directory: Path, root: Path, names: seq<string>, values: map<string, string>): (r: seq<string>)
    requires forall i :: 0 <= i < |names| ==> names[i] in values
    ensures |r| == |names|
    ensures forall i :: 0 <= i < |names| ==> r[i] == EntryLine(values[names[i]], EntryPath(directory, names[i], root))
  {
    seq(|names|, i requires 0 <= i < |names| => EntryLine(values[names[i]], EntryPath(directory, names[i], root)))
  }

  /** The file name is in the directory: it is one component. */
  predicate PlainName(name: string)
  {
    CleanComponent(name) && name != ".." && '\\' !in name && StorableName(name)
  }

  /**
   * For a directory at or below the root, each appended line reads back as
   * its hash and a path that, joined onto the root, names the file; its
   * parent is the directory.
   */
  lemma AppendedLineReadsBack(directory: Path, root: Path, name: string, hash: string)
    requires root <= directory && CleanPath(directory) && PlainName(name) && StorableHash(hash)
    requires forall i :: 0 <= i < |directory| ==> '\\' !in directory[i] && directory[i] != ".."
    requires forall i :: 0 <= i < |directory| ==> NoNewline(directory[i])
    ensures var rel := EntryPath(directory, name, root);
      && ParseLine(EntryLine(hash, rel)) == Some((rel, hash))
      && JoinStr(root, rel) == directory + [name]
      && Parent(JoinStr(root, rel)) == directory
  {
    var target := directory + [name];
    assert CleanPath([name]);
    JoinStrOfJoin(directory, [name]);
    assert RelText([name]) == name;
    assert CleanPath(target);
    RelPathBelow(target, root);
    var parts := target[|root|..];
    assert parts != [] && parts[|parts| - 1] == name;
    JoinPlain(parts);
    var rel := RelPath(target, root);
    ReplaceCharAbsent(rel, '\\', '/');
    RelPathRoundTrip(target, root);
    assert EntryPath(directory, name, root) == rel;
    ParseEntryLine(hash, rel);
  }

  /** Joining plain components keeps every character property the parts share. */
  lemma {:induction false} JoinPlain(parts: seq<string>)
    requires parts != [] && parts[|parts| - 1] != [] && !IsSpace(parts[|parts| - 1][|parts[|parts| - 1]| - 1])
    requires forall i :: 0 <= i < |parts| ==> NoNewline(parts[i]) && '\\' !in parts[i]
    ensures var s := Join(parts, '/');
      s != [] && NoNewline(s) && '\\' !in s && !IsSpace(s[|s| - 1])
    decreases |parts|
  {
    if |parts| > 1 {
      JoinPlain(parts[1..]);
    }
  }

  // ------------------------------------------------------------ the writer

  /** How open() ended: opened, cancelled at the overwrite prompt (KeyboardInterrupt), or raised. */
  datatype OpenResult = Opened | Cancelled | OpenFailed

  /** _cleanup_temp: remove the temp file if it is there. */
  function CleanupTemp(d: Disk, temp: Path): (r: Disk)
    ensures temp !in r.files && r.dirs == d.dirs
    ensures forall p :: p != temp ==> (p in r.files <==> p in d.files) && (p in r.files ==> r.files[p] == d.files[p])
  {
    if temp in d.files then RemoveFile(d, temp) else d
  }

  class MonolithicWriter {
    const outputPath: Path
    const tempPath: Path
    const rootPath: Path
    const algorithm: string
    const resumeMode: bool
    const yesToAll: bool
    var isOpen: bool
    var entriesWritten: nat

    constructor(outputPath: Path, rootPath: Path, algorithm: string, resumeMode: bool, yesToAll: bool)
      requires outputPath != []
      ensures this.outputPath == outputPath && this.rootPath == rootPath && this.algorithm == algorithm
      ensures this.resumeMode == resumeMode && this.yesToAll == yesToAll
      ensures Siblings(tempPath, outputPath)
      ensures !isOpen && entriesWritten == 0
    {
      this.outputPath := outputPath;
      this.tempPath := WithNameSuffix(outputPath, ".tmp");
      this.rootPath := rootPath;
      this.algorithm := algorithm;
      this.resumeMode := resumeMode;
      this.yesToAll := yesToAll;
      isOpen := false;
      entriesWritten := 0;
    }

    /**
     * open(): make the parent directories; in normal mode an existing target
     * needs permission (yes_to_all, or the prompt's answer) or the call is
     * cancelled without cleanup; in resume mode with an existing target the
     * temp file starts as the target minus one end marker, otherwise with the
     * two header lines. `fails` stands for an OSError while creating the temp
     * file, and a directory at the temp path makes `open` raise as well; then
     * the temp file is removed and the writer stays as it was.
     */
    method Open(disk: Disk, answer: bool, fails: bool, timestamp: string) returns (result: OpenResult, d: Disk)
      modifies this
      ensures entriesWritten == old(entriesWritten)
      ensures var made := MakeDirs(disk, Parent(outputPath));
        && (result == Cancelled <==> !resumeMode && Exists(made, outputPath) && !(yesToAll || answer))
        && (result == Cancelled ==> d == made && isOpen == old(isOpen))
        && (result == OpenFailed ==> d == CleanupTemp(made, tempPath) && isOpen == old(isOpen))
        && (result == Opened ==>
             (isOpen && d.dirs == made.dirs && tempPath in d.files &&
              forall p :: p != tempPath ==> (p in d.files <==> p in disk.files) && (p in d.files ==> d.files[p] == disk.files[p])))
        && (result == Opened && resumeMode && Exists(made, outputPath) ==>
             outputPath in disk.files && d.files[tempPath] == ResumeContent(disk.files[outputPath]))
        && (result == Opened && !(resumeMode && Exists(made, outputPath)) ==>
             d.files[tempPath] == MonolithicHeader(algorithm, timestamp, rootPath))
        && (result == OpenFailed <==>
             (result != Cancelled && (fails || tempPath in made.dirs
                                      || (resumeMode && Exists(made, outputPath) && Read(made, outputPath).None?))))
    {
      var made := MakeDirs(disk, Parent(outputPath));
      if !resumeMode && Exists(made, outputPath) && !(yesToAll || answer) {
        return Cancelled, made;
      }
      if resumeMode && Exists(made, outputPath) {
        var copied := Read(made, outputPath);
        if fails || tempPath in made.dirs || copied.None? {
          return OpenFailed, CleanupTemp(made, tempPath);
        }
        d := WriteFile(made, tempPath, ResumeContent(copied.value));
      } else {
        if fails || tempPath in made.dirs {
          return OpenFailed, CleanupTemp(made, tempPath);
        }
        d := WriteFile(made, tempPath, MonolithicHeader(algorithm, timestamp, rootPath));
      }
      isOpen := true;
      result := Opened;
    }

    /**
     * append_directory_checksums: RuntimeError (false, nothing written) when
     * the writer is not open; otherwise one `hash  relpath` line per entry in
     * sorted name order, each counted in entriesWritten.
     */
    method AppendDirectoryChecksums(disk: Disk, directory: Path, checksums: Dict) returns (ok: bool, d: Disk)
      requires WellFormed(checksums)
      modifies this
      ensures ok == old(isOpen) && isOpen == old(isOpen)
      ensures !ok ==> d == disk && entriesWritten == old(entriesWritten)
      ensures ok ==> entriesWritten == old(entriesWritten) + |checksums.keys|
      ensures ok && tempPath in disk.files ==>
        d == WriteFile(disk, tempPath, disk.files[tempPath] +
          Unlines(AppendedLines(directory, rootPath, Sort(checksums.keys), checksums.values)))
      ensures ok && tempPath !in disk.files ==> d == disk
    {
      if !isOpen {
        return false, disk;
      }
      var names := Sort(checksums.keys);
      SortedKeysPresent(checksums);
      var lines := FormatEntries(directory, rootPath, names, checksums.values);
      entriesWritten := entriesWritten + |names|;
      d := if tempPath in disk.files then WriteFile(disk, tempPath, disk.files[tempPath] + Unlines(lines)) else disk;
      ok := true;
    }

    /**
     * close(success): a no-op when not open. Otherwise, on success the end
     * marker is written and, if the temp file is there, renamed over the
     * target; if that raises, or on failure, the temp file is removed. The
     * writer is closed on every path; `ok` is false when close raises.
     */
    method Close(disk: Disk, success: bool, windows: bool, faults: set<Step>) returns (ok: bool, d: Disk)
      modifies this
      ensures !old(isOpen) ==> ok && d == disk
      ensures old(isOpen) ==> Outcome(d, ok) == CloseOutcome(disk, tempPath, outputPath, success, windows, faults)
      ensures !isOpen && entriesWritten == old(entriesWritten)
    {
      if !isOpen {
        return true, disk;
      }
      var o := CloseOutcome(disk, tempPath, outputPath, success, windows, faults);
      ok, d := o.ok, o.disk;
      isOpen := false;
    }
  }

  /** The loop of append_directory_checksums: one line per name, in order. */
  method FormatEntries(directory: Path, root: Path, names: seq<string>, values: map<string, string>) returns (lines: seq<string>)
    requires forall i :: 0 <= i < |names| ==> names[i] in values
    ensures lines == AppendedLines(directory, root, names, values)
  {
    lines := [];
    for i := 0 to |names|
      invariant lines == AppendedLines(directory, root, names[..i], values)
    {
      var rel := EntryPath(directory, names[i], root);
      AppendedLinesSnoc(directory, root, names[..i + 1], values);
      assert names[..i + 1][..i] == names[..i];
      lines := lines + [EntryLine(values[names[i]], rel)];
    }
    assert names[..|names|] == names;
  }

  lemma AppendedLinesSnoc(directory: Path, root: Path, names: seq<string>, values: map<string, string>)
    requires names != [] && forall i :: 0 <= i < |names| ==> names[i] in values
    ensures var n := names[|names| - 1];
      AppendedLines(directory, root, names, values) ==
      AppendedLines(directory, root, names[..|names| - 1], values) + [EntryLine(values[n], EntryPath(directory, n, root))]
  {
    var init := names[..|names| - 1];
    var n := names[|names| - 1];
    var a := AppendedLines(directory, root, names, values);
    var b := AppendedLines(directory, root, init, values);
    forall k | 0 <= k < |b| ensures a[k] == b[k] {
      assert init[k] == names[k];
    }
    PointwiseSnoc(a, b, EntryLine(values[n], EntryPath(directory, n, root)));
  }

  lemma SortedKeysPresent(d: Dict)
    requires WellFormed(d)
    ensures forall i :: 0 <= i < |Sort(d.keys)| ==> Sort(d.keys)[i] in d.values
  {
    var names := Sort(d.keys);
    forall i | 0 <= i < |names| ensures names[i] in d.values {
      assert names[i] in names;
    }
  }

  /** The file-system effect of close() on an open writer. */
  function CloseOutcome(d: Disk, temp: Path, output: Path, success: bool, windows: bool, faults: set<Step>): (o: Outcome)
    ensures !success ==> o.ok
  {
    var finished := if success && temp in d.files then WriteFile(d, temp, d.files[temp] + Footer) else d;
    if success && Exists(finished, temp) then
      var r := AtomicReplace(finished, temp, output, windows, faults);
      if r.ok then Outcome(r.disk, true) else Outcome(CleanupTemp(r.disk, temp), false)
    else Outcome(CleanupTemp(finished, temp), true)
  }

  /**
   * close(success=True) without faults: the target holds the temp text with
   * one end marker after it, and no temp file remains.
   */
  lemma CloseCommits(d: Disk, temp: Path, output: Path, windows: bool)
    requires Siblings(temp, output) && temp in d.files && NoDirsInTheWay(d, output)
    ensures var o := CloseOutcome(d, temp, output, true, windows, {});
      && o.ok && output in o.disk.files && o.disk.files[output] == d.files[temp] + Footer
      && temp !in o.disk.files
  {
    var finished := WriteFile(d, temp, d.files[temp] + Footer);
    AtomicReplaceCommits(finished, temp, output, windows);
  }

  /** close(success=False) removes the temp file and leaves every other file as it was. */
  lemma CloseDiscards(d: Disk, temp: Path, output: Path, windows: bool, faults: set<Step>)
    ensures var o := CloseOutcome(d, temp, output, false, windows, faults);
      && o.ok && temp !in o.disk.files
      && (forall p :: p != temp ==> (p in o.disk.files <==> p in d.files) && (p in o.disk.files ==> o.disk.files[p] == d.files[p]))
  {
  }

  /** A replace that returns normally has moved the source away. */
  lemma AtomicReplaceMovesSource(d: Disk, src: Path, dst: Path, windows: bool, faults: set<Step>)
    requires Siblings(src, dst)
    ensures var o := AtomicReplace(d, src, dst, windows, faults);
      o.ok ==> src !in o.disk.files
  {
    SiblingsDistinct(src, dst);
  }

  /** Whatever happens, no temp file is left once close() has run. */
  lemma CloseLeavesNoTemp(d: Disk, temp: Path, output: Path, success: bool, windows: bool, faults: set<Step>)
    requires Siblings(temp, output)
    ensures temp !in CloseOutcome(d, temp, output, success, windows, faults).disk.files
  {
    var finished := if success && temp in d.files then WriteFile(d, temp, d.files[temp] + Footer) else d;
    if success && Exists(finished, temp) {
      AtomicReplaceMovesSource(finished, temp, output, windows, faults);
    }
  }

  /** A close that raises keeps the old target text at the target or at the backup name. */
  lemma CloseFailureKeepsOld(d: Disk, temp: Path, output: Path, windows: bool, faults: set<Step>)
    requires Siblings(temp, output) && output in d.files
    ensures var o := CloseOutcome(d, temp, output, true, windows, faults);
      !o.ok ==>
        (output in o.disk.files && o.disk.files[output] == d.files[output]) ||
        (Backup(output) in o.disk.files && o.disk.files[Backup(output)] == d.files[output])
  {
    SiblingsDistinct(temp, output);
    var finished := if temp in d.files then WriteFile(d, temp, d.files[temp] + Footer) else d;
    if Exists(finished, temp) {
      AtomicReplaceKeepsOld(finished, temp, output, windows, faults);
    }
  }
}
