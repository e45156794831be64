/**
 * The parts of ChecksumGenerator that read and write digest files: writing a
 * per-directory `.shasum` file, verifying a directory or a tree-wide file
 * against the files on disk, and planning which directories a resumed run
 * skips. The digest of a file is an oracle `hash(path, text)`.
 */
module Generator {
  import opened Wrappers
  import opened Text
  import opened Constants
  import opened Ordering
  import opened Paths
  import opened Disks
  import opened DigestFormat
  import opened MonolithicWriting
  import opened Shadow
  import opened IncludeFilter
  import opened VerifyResults
  import opened Walker

  // ------------------------------------------------------------ classification

  /** What checking one stored entry finds. */
  datatype EntryStatus = Missing | Verified | Failing(failure: Failure)

  /**
   * One stored entry: missing when nothing exists at its path; a failure when
   * hashing raises (a directory, or a file that cannot be read); verified when
   * the hashes agree ignoring case; a mismatch otherwise.
   */
  function StatusOf(d: Disk, base: Path, hash: (Path, string) -> string, name: string, expected: string): EntryStatus
  {
    var p := JoinStr(base, name);
    if !Exists(d, p) then Missing
    else if p !in d.files || p in d.unreadable then Failing(HashError(name))
    else
      var actual := hash(p, d.files[p]);
      if Lower(actual) == Lower(expected) then Verified else Failing(Mismatch(name, expected, actual))
  }

  predicate AllStored(names: seq<string>, values: map<string, string>)
  {
    forall i :: 0 <= i < |names| ==> names[i] in values
  }

  /** The `verified` list: the stored names that verify, in stored order. */
  function VerifiedOf(d: Disk, base: Path, hash: (Path, string) -> string, names: seq<string>, values: map<string, string>): seq<string>
    requires AllStored(names, values)
  {
    if names == [] then []
    else
      var n := names[|names| - 1];
      VerifiedOf(d, base, hash, names[..|names| - 1], values)
        + (if StatusOf(d, base, hash, n, values[n]).Verified? then [n] else [])
  }

  /** The `missing` list. */
  function MissingOf(d: Disk, base: Path, hash: (Path, string) -> string, names: seq<string>, values: map<string, string>): seq<string>
    requires AllStored(names, values)
  {
    if names == [] then []
    else
      var n := names[|names| - 1];
      MissingOf(d, base, hash, names[..|names| - 1], values)
        + (if StatusOf(d, base, hash, n, values[n]).Missing? then [n] else [])
  }

  /** The `failed` list. */
  function FailedOf(d: Disk, base: Path, hash: (Path, string) -> string, names: seq<string>, values: map<string, string>): seq<Failure>
    requires AllStored(names, values)
  {
    if names == [] then []
    else
      var n := names[|names| - 1];
      var s := StatusOf(d, base, hash, n, values[n]);
      FailedOf(d, base, hash, names[..|names| - 1], values) + (if s.Failing? then [s.failure] else [])
  }

  function Filenames(fs: seq<Failure>): (r: seq<string>)
    ensures |r| == |fs| && forall i :: 0 <= i < |fs| ==> r[i] == fs[i].Filename()
  {
    seq(|fs|, i requires 0 <= i < |fs| => fs[i].Filename())
  }

  lemma FailureNamed(s: EntryStatus, d: Disk, base: Path, hash: (Path, string) -> string, n: string, e: string)
    requires s == StatusOf(d, base, hash, n, e) && s.Failing?
    ensures s.failure.Filename() == n
  {
  }

  /**
   * Each list holds exactly the stored names with that outcome, so every
   * stored name lands in exactly one of the three lists.
   */
  lemma ClassifyEntries(d: Disk, base: Path, hash: (Path, string) -> string,
                        names: seq<string>, values: map<string, string>, n: string)
    requires AllStored(names, values)
    ensures n in VerifiedOf(d, base, hash, names, values) <==>
      n in names && StatusOf(d, base, hash, n, values[n]).Verified?
    ensures n in MissingOf(d, base, hash, names, values) <==>
      n in names && StatusOf(d, base, hash, n, values[n]).Missing?
    ensures n in Filenames(FailedOf(d, base, hash, names, values)) <==>
      n in names && StatusOf(d, base, hash, n, values[n]).Failing?
  {
    VerifiedMembers(d, base, hash, names, values, n);
    MissingMembers(d, base, hash, names, values, n);
    FailedMembers(d, base, hash, names, values, n);
  }

  lemma {:induction false} VerifiedMembers(d: Disk, base: Path, hash: (Path, string) -> string,
                                           names: seq<string>, values: map<string, string>, n: string)
    requires AllStored(names, values)
    ensures n in VerifiedOf(d, base, hash, names, values) <==>
      n in names && StatusOf(d, base, hash, n, values[n]).Verified?
    decreases |names|
  {
    if names != [] {
      var init := names[..|names| - 1];
      assert names == init + [names[|names| - 1]];
      VerifiedMembers(d, base, hash, init, values, n);
    }
  }

  lemma {:induction false} MissingMembers(d: Disk, base: Path, hash: (Path, string) -> string,
                                          names: seq<string>, values: map<string, string>, n: string)
    requires AllStored(names, values)
    ensures n in MissingOf(d, base, hash, names, values) <==>
      n in names && StatusOf(d, base, hash, n, values[n]).Missing?
    decreases |names|
  {
    if names != [] {
      var init := names[..|names| - 1];
      assert names == init + [names[|names| - 1]];
      MissingMembers(d, base, hash, init, values, n);
    }
  }

  lemma FilenamesAppend(a: seq<Failure>, b: seq<Failure>)
    ensures Filenames(a + b) == Filenames(a) + Filenames(b)
  {
    var l, r := Filenames(a + b), Filenames(a) + Filenames(b);
    forall k | 0 <= k < |l| ensures l[k] == r[k] {
      if k < |a| { assert (a + b)[k] == a[k]; } else { assert (a + b)[k] == b[k - |a|]; }
    }
  }

  lemma {:induction false} FailedMembers(d: Disk, base: Path, hash: (Path, string) -> string,
                                         names: seq<string>, values: map<string, string>, n: string)
    requires AllStored(names, values)
    ensures n in Filenames(FailedOf(d, base, hash, names, values)) <==>
      n in names && StatusOf(d, base, hash, n, values[n]).Failing?
    decreases |names|
  {
    if names != [] {
      var init := names[..|names| - 1];
      var last := names[|names| - 1];
      assert names == init + [last];
      FailedMembers(d, base, hash, init, values, n);
      var s := StatusOf(d, base, hash, last, values[last]);
      var fs := FailedOf(d, base, hash, init, values);
      var tail := if s.Failing? then [s.failure] else [];
      assert FailedOf(d, base, hash, names, values) == fs + tail;
      FilenamesAppend(fs, tail);
      if s.Failing? {
        FailureNamed(s, d, base, hash, last, values[last]);
        assert Filenames(tail) == [last];
      } else {
        assert Filenames(tail) == [];
      }
      assert n in Filenames(fs + tail) <==> n in Filenames(fs) || n in Filenames(tail);
    }
  }

  /** Every stored entry verifies. */
  predicate AllVerify(d: Disk, base: Path, hash: (Path, string) -> string, names: seq<string>, values: map<string, string>)
  {
    forall n :: n in names && n in values ==> StatusOf(d, base, hash, n, values[n]).Verified?
  }

  /** When every stored entry verifies, `verified` is the stored names in order. */
  lemma {:induction false} AllVerified(d: Disk, base: Path, hash: (Path, string) -> string,
                                       names: seq<string>, values: map<string, string>)
    requires AllStored(names, values) && AllVerify(d, base, hash, names, values)
    ensures VerifiedOf(d, base, hash, names, values) == names
    decreases |names|
  {
    if names != [] {
      var init := names[..|names| - 1];
      var last := names[|names| - 1];
      assert last in names;
      assert StatusOf(d, base, hash, last, values[last]).Verified?;
      assert VerifiedOf(d, base, hash, names, values) == VerifiedOf(d, base, hash, init, values) + [last];
      AllVerified(d, base, hash, init, values);
      Snoc(names);
    }
  }

  lemma Snoc<T>(s: seq<T>)
    requires s != []
    ensures s[..|s| - 1] + [s[|s| - 1]] == s
  {
  }

  /** When every stored entry verifies, nothing is missing and nothing failed. */
  lemma {:induction false} NoneMissingOrFailed(d: Disk, base: Path, hash: (Path, string) -> string,
                                               names: seq<string>, values: map<string, string>)
    requires AllStored(names, values) && AllVerify(d, base, hash, names, values)
    ensures MissingOf(d, base, hash, names, values) == []
    ensures FailedOf(d, base, hash, names, values) == []
    decreases |names|
  {
    if names != [] {
      var init := names[..|names| - 1];
      var last := names[|names| - 1];
      assert last in names;
      NoneMissingOrFailed(d, base, hash, init, values);
    }
  }

  /**
   * The loop over the stored entries shared by both verifiers: each entry is
   * resolved against `base` and classified, in the dict's order.
   */
  method CheckEntries(d: Disk, stored: Dict, base: Path, hash: (Path, string) -> string)
    returns (verified: seq<string>, failed: seq<Failure>, missing: seq<string>)
    requires AllStored(stored.keys, stored.values)
    ensures verified == VerifiedOf(d, base, hash, stored.keys, stored.values)
    ensures failed == FailedOf(d, base, hash, stored.keys, stored.values)
    ensures missing == MissingOf(d, base, hash, stored.keys, stored.values)
  {
    var names := stored.keys;
    verified, failed, missing := [], [], [];
    for i := 0 to |names|
      invariant verified == VerifiedOf(d, base, hash, names[..i], stored.values)
      invariant failed == FailedOf(d, base, hash, names[..i], stored.values)
      invariant missing == MissingOf(d, base, hash, names[..i], stored.values)
    {
      var n := names[i];
      var expected := stored.values[n];
      assert names[..i + 1][..i] == names[..i] && names[..i + 1][i] == n;
      ListsSnoc(d, base, hash, names[..i + 1], stored.values);
      var s := CheckEntry(d, base, hash, n, expected);
      match s {
        case Missing => missing := missing + [n];
        case Failing(f) => failed := failed + [f];
        case Verified => verified := verified + [n];
      }
    }
    assert names[..|names|] == names;
  }

  /** One stored entry: resolve it against `base`, hash the file if there is one, compare. */
  method CheckEntry(d: Disk, base: Path, hash: (Path, string) -> string, n: string, expected: string) returns (s: EntryStatus)
    ensures s == StatusOf(d, base, hash, n, expected)
  {
    var p := JoinStr(base, n);
    if !Exists(d, p) {
      s := Missing;
    } else if p !in d.files || p in d.unreadable {
      s := Failing(HashError(n));
    } else {
      var actual := hash(p, d.files[p]);
      if Lower(actual) == Lower(expected) {
        s := Verified;
      } else {
        s := Failing(Mismatch(n, expected, actual));
      }
    }
  }

  /** The three lists for one more name: the earlier lists, and the new name's outcome at the end of one. */
  lemma ListsSnoc(d: Disk, base: Path, hash: (Path, string) -> string, names: seq<string>, values: map<string, string>)
    requires names != [] && AllStored(names, values)
    ensures var init, n := names[..|names| - 1], names[|names| - 1];
      var s := StatusOf(d, base, hash, n, values[n]);
      && VerifiedOf(d, base, hash, names, values) == VerifiedOf(d, base, hash, init, values) + (if s.Verified? then [n] else [])
      && MissingOf(d, base, hash, names, values) == MissingOf(d, base, hash, init, values) + (if s.Missing? then [n] else [])
      && FailedOf(d, base, hash, names, values) == FailedOf(d, base, hash, init, values) + (if s.Failing? then [s.failure] else [])
  {
  }

  lemma StoredKeysPresent(stored: Dict)
    requires WellFormed(stored)
    ensures AllStored(stored.keys, stored.values)
  {
  }

  // ------------------------------------------------------------ per directory

  /** Where the per-directory digest file of a directory lives; None is the ValueError of shadow mode. */
  function ShasumPathFor(shadow: Option<Resolver>, directory: Path): Option<Path>
  {
    match shadow
    case None => Some(directory + [ShasumFilename])
    case Some(r) => ShadowShasumPath(r, directory)
  }

  /** The base stored names resolve against: the directory, or the source root in shadow mode. */
  function EntryBase(shadow: Option<Resolver>, directory: Path): Path
  {
    match shadow
    case None => directory
    case Some(r) => r.sourceRoot
  }

  /** The regular files directly in the directory that the include rules accept. */
  function IncludedCurrentFiles(d: Disk, directory: Path, includes: seq<string>, excludes: seq<string>,
                                matches: (Path, string) -> bool): set<string>
  {
    set n | n in FilesIn(d, directory) && ShouldIncludeFile(directory + [n], includes, excludes, matches)
  }

  /**
   * verify_checksums_in_directory. None stands for an exception leaving the
   * call: the shadow mapping's ValueError, or listing a directory that is
   * not there.
   */
  function DirectoryVerification(d: Disk, shadow: Option<Resolver>, directory: Path, hash: (Path, string) -> string,
                                 includes: seq<string>, excludes: seq<string>, matches: (Path, string) -> bool): (r: Option<VerifyResult>)
    ensures ShasumPathFor(shadow, directory).None? ==> r.None?
    ensures ShasumPathFor(shadow, directory).Some? && !Exists(d, ShasumPathFor(shadow, directory).value) ==>
      r == Some(VerifyError("No .shasum file found in " + PathString(ShasumPathFor(shadow, directory).value)))
    ensures r.Some? && r.value.Report? ==>
      && ShasumPathFor(shadow, directory).Some? && Read(d, ShasumPathFor(shadow, directory).value).Some?
      && var stored := ParseDigest(Read(d, ShasumPathFor(shadow, directory).value).value);
      r.value.extra == IncludedCurrentFiles(d, directory, includes, excludes, matches) - set n | n in stored.keys
  {
    match ShasumPathFor(shadow, directory)
    case None => None
    case Some(path) =>
      if !Exists(d, path) then Some(VerifyError("No .shasum file found in " + PathString(path)))
      else match Read(d, path)
        case None => Some(VerifyError("Error reading " + PathString(path)))
        case Some(text) =>
          if directory !in d.dirs then None
          else
            var stored := ParseDigest(text);
            var base := EntryBase(shadow, directory);
            var current := IncludedCurrentFiles(d, directory, includes, excludes, matches);
            Some(Report(VerifiedOf(d, base, hash, stored.keys, stored.values),
                        FailedOf(d, base, hash, stored.keys, stored.values),
                        MissingOf(d, base, hash, stored.keys, stored.values),
                        current - set n | n in stored.keys))
  }

  /**
   * What verify_checksums_in_directory reports: for the dict read from the
   * digest file, every stored name is in exactly one list, by its status.
   */
  lemma DirectoryReportClassifies(d: Disk, shadow: Option<Resolver>, directory: Path, hash: (Path, string) -> string,
                                  includes: seq<string>, excludes: seq<string>, matches: (Path, string) -> bool, n: string)
    requires ShasumPathFor(shadow, directory).Some?
    requires Read(d, ShasumPathFor(shadow, directory).value).Some?
    ensures var r := DirectoryVerification(d, shadow, directory, hash, includes, excludes, matches);
      var stored := ParseDigest(Read(d, ShasumPathFor(shadow, directory).value).value);
      var base := EntryBase(shadow, directory);
      r.Some? ==>
        && r.value.Report?
        && (n in r.value.verified <==> n in stored.keys && StatusOf(d, base, hash, n, stored.values[n]).Verified?)
        && (n in r.value.missing <==> n in stored.keys && StatusOf(d, base, hash, n, stored.values[n]).Missing?)
        && (n in Filenames(r.value.failed) <==> n in stored.keys && StatusOf(d, base, hash, n, stored.values[n]).Failing?)
  {
    var path := ShasumPathFor(shadow, directory).value;
    var stored := ParseDigest(Read(d, path).value);
    var base := EntryBase(shadow, directory);
    var r := DirectoryVerification(d, shadow, directory, hash, includes, excludes, matches);
    StoredKeysPresent(stored);
    if r.Some? {
      assert directory in d.dirs;
      assert r.value.verified == VerifiedOf(d, base, hash, stored.keys, stored.values);
      assert r.value.missing == MissingOf(d, base, hash, stored.keys, stored.values);
      assert r.value.failed == FailedOf(d, base, hash, stored.keys, stored.values);
      ClassifyEntries(d, base, hash, stored.keys, stored.values, n);
    }
  }

  // ------------------------------------------------------------ tree-wide file

  /**
   * verify_monolithic_file: every entry resolves against the root directory
   * given, whatever root the file records, and `extra` stays empty.
   */
  function MonolithicVerification(d: Disk, monolithicFile: Path, rootDirectory: Path, hash: (Path, string) -> string): (r: VerifyResult)
    ensures !Exists(d, monolithicFile) ==> r == VerifyError("Monolithic file not found: " + PathString(monolithicFile))
    ensures r.Report? ==> r.extra == {}
    ensures r.Report? ==>
      && Read(d, monolithicFile).Some?
      && var stored := ParseDigest(Read(d, monolithicFile).value);
      && r.verified == VerifiedOf(d, rootDirectory, hash, stored.keys, stored.values)
      && r.failed == FailedOf(d, rootDirectory, hash, stored.keys, stored.values)
      && r.missing == MissingOf(d, rootDirectory, hash, stored.keys, stored.values)
  {
    if !Exists(d, monolithicFile) then VerifyError("Monolithic file not found: " + PathString(monolithicFile))
    else match Read(d, monolithicFile)
      case None => VerifyError("Error reading monolithic file")
      case Some(text) =>
        var stored := ParseDigest(text);
        Report(VerifiedOf(d, rootDirectory, hash, stored.keys, stored.values),
               FailedOf(d, rootDirectory, hash, stored.keys, stored.values),
               MissingOf(d, rootDirectory, hash, stored.keys, stored.values),
               {})
  }

  /**
   * What verify_monolithic_file reports: every entry of the tree-wide file is
   * in exactly one list, by its status against the root directory given.
   */
  lemma MonolithicReportClassifies(d: Disk, monolithicFile: Path, rootDirectory: Path, hash: (Path, string) -> string, n: string)
    requires Read(d, monolithicFile).Some?
    ensures var r := MonolithicVerification(d, monolithicFile, rootDirectory, hash);
      var stored := ParseDigest(Read(d, monolithicFile).value);
      && r.Report? && r.extra == {}
      && (n in r.verified <==> n in stored.keys && StatusOf(d, rootDirectory, hash, n, stored.values[n]).Verified?)
      && (n in r.missing <==> n in stored.keys && StatusOf(d, rootDirectory, hash, n, stored.values[n]).Missing?)
      && (n in Filenames(r.failed) <==> n in stored.keys && StatusOf(d, rootDirectory, hash, n, stored.values[n]).Failing?)
  {
    var stored := ParseDigest(Read(d, monolithicFile).value);
    StoredKeysPresent(stored);
    assert Exists(d, monolithicFile);
    ClassifyEntries(d, rootDirectory, hash, stored.keys, stored.values, n);
  }

  // ------------------------------------------------------------ writing

  /**
   * How the `with open(path, 'w')` block of write_shasum_file ends: it
   * completes, open() itself raises (the old file is untouched), or a write
   * raises after open() truncated the file and `kept` characters of the new
   * text reached it.
   */
  datatype WriteFault = NoFault | OpenFails | WriteFails(kept: nat)

  /**
   * write_shasum_file: in shadow mode the path comes from the resolver (its
   * ValueError leaves the call: None) and its directory is created; the file
   * then holds the header, the entries sorted by name and the end marker. A
   * write that raises is only logged, and leaves whatever reached the file.
   */
  function WriteShasum(d: Disk, shadow: Option<Resolver>, algorithm: string, directory: Path, checksums: Dict,
                       timestamp: string, fault: WriteFault): (r: Option<Disk>)
    requires WellFormed(checksums)
    ensures r.None? <==> ShasumPathFor(shadow, directory).None?
    ensures r.Some? ==>
      var p := ShasumPathFor(shadow, directory).value;
      var text := ShasumText(algorithm, timestamp, checksums);
      && r.value.files - {p} == d.files - {p}
      && r.value.unreadable == d.unreadable
      && r.value.dirs == (if shadow.Some? then d.dirs + Ancestors(Parent(p)) else d.dirs)
      && (fault.OpenFails? || p in r.value.dirs ==> r.value.files == d.files)
      && (fault.NoFault? && p !in r.value.dirs ==> p in r.value.files && r.value.files[p] == text)
      && (fault.WriteFails? && p !in r.value.dirs ==>
            p in r.value.files && r.value.files[p] <= text && |r.value.files[p]| == Min(fault.kept, |text|))
  {
    match ShasumPathFor(shadow, directory)
    case None => None
    case Some(p) =>
      var made := if shadow.Some? then MakeDirs(d, Parent(p)) else d;
      var text := ShasumText(algorithm, timestamp, checksums);
      if p in made.dirs then Some(made)
      else match fault
        case OpenFails => Some(made)
        case NoFault => Some(WriteFile(made, p, text))
        case WriteFails(kept) => Some(WriteFile(made, p, text[..Min(kept, |text|)]))
  }

  function Min(a: nat, b: nat): nat
  {
    if a < b then a else b
  }

  /**
   * A write that raises after open() still leaves a digest file behind, so
   * the resume scan counts the directory as done, whatever part of the text
   * reached the file.
   */
  lemma TruncatedDigestCountsAsDone(d: Disk, algorithm: string, directory: Path, checksums: Dict, timestamp: string,
                                    kept: nat, root: Path)
    requires WellFormed(checksums)
    requires directory + [ShasumFilename] !in d.dirs && root <= directory
    ensures var d' := WriteShasum(d, None, algorithm, directory, checksums, timestamp, WriteFails(kept)).value;
      directory in ShasumDirsBelow(d', root)
  {
    var p := directory + [ShasumFilename];
    var d' := WriteShasum(d, None, algorithm, directory, checksums, timestamp, WriteFails(kept)).value;
    assert p in d'.files && p != [] && Name(p) == ShasumFilename && Parent(p) == directory;
  }

  /** The files a digest file lists, as generation leaves them: present, readable, hashed to the stored value. */
  predicate HashedFiles(d: Disk, directory: Path, hash: (Path, string) -> string, checksums: Dict)
  {
    forall n :: n in checksums.values ==>
      && CleanComponent(n) && n != ShasumFilename
      && var p := directory + [n];
        p in d.files && p !in d.unreadable && hash(p, d.files[p]) == checksums.values[n]
  }

  /** Writing the digest file leaves every hashed file verifying against its stored hash. */
  lemma WrittenEntriesVerify(d: Disk, directory: Path, text: string, hash: (Path, string) -> string, checksums: Dict)
    requires WellFormed(checksums) && HashedFiles(d, directory, hash, checksums)
    ensures AllVerify(WriteFile(d, directory + [ShasumFilename], text), directory, hash, Sort(checksums.keys), checksums.values)
  {
    var d' := WriteFile(d, directory + [ShasumFilename], text);
    forall n | n in Sort(checksums.keys) && n in checksums.values
      ensures StatusOf(d', directory, hash, n, checksums.values[n]).Verified?
    {
      NameVerifiesAfterWrite(d, directory, text, hash, n, checksums.values[n]);
    }
  }

  /** One hashed file still verifies once the digest file beside it is written. */
  lemma NameVerifiesAfterWrite(d: Disk, directory: Path, text: string, hash: (Path, string) -> string, n: string, expected: string)
    requires CleanComponent(n) && n != ShasumFilename
    requires directory + [n] in d.files && directory + [n] !in d.unreadable
    requires hash(directory + [n], d.files[directory + [n]]) == expected
    ensures StatusOf(WriteFile(d, directory + [ShasumFilename], text), directory, hash, n, expected).Verified?
  {
    JoinName(directory, n);
    assert (directory + [n])[|directory|] == n;
  }

  /**
   * Writing a directory's digest file and then verifying the directory finds
   * every file verified, in sorted name order, and nothing failed or missing.
   */
  lemma WriteThenReport(d: Disk, algorithm: string, directory: Path, checksums: Dict, timestamp: string,
                        hash: (Path, string) -> string, includes: seq<string>, excludes: seq<string>,
                        matches: (Path, string) -> bool)
    requires WellFormed(checksums) && Storable(checksums)
    requires NoNewline(algorithm) && NoNewline(timestamp)
    requires directory in d.dirs && directory + [ShasumFilename] !in d.dirs + d.unreadable
    requires HashedFiles(d, directory, hash, checksums)
    ensures var d' := WriteShasum(d, None, algorithm, directory, checksums, timestamp, NoFault).value;
      var r := DirectoryVerification(d', None, directory, hash, includes, excludes, matches);
      && r.Some? && r.value.Report?
      && r.value.verified == Sort(checksums.keys)
      && r.value.failed == [] && r.value.missing == []
  {
    var path := directory + [ShasumFilename];
    var d' := WriteFile(d, path, ShasumText(algorithm, timestamp, checksums));
    assert WriteShasum(d, None, algorithm, directory, checksums, timestamp, NoFault) == Some(d');
    ShasumRoundTrip(algorithm, timestamp, checksums);
    var stored := ParseDigest(d'.files[path]);
    assert stored == Dict(Sort(checksums.keys), checksums.values);
    var names := Sort(checksums.keys);
    WrittenEntriesVerify(d, directory, ShasumText(algorithm, timestamp, checksums), hash, checksums);
    AllVerified(d', directory, hash, names, checksums.values);
    NoneMissingOrFailed(d', directory, hash, names, checksums.values);
    assert Read(d', path) == Some(ShasumText(algorithm, timestamp, checksums));
    assert directory in d'.dirs;
  }

  /**
   * When the digest file lists exactly the directory's included files, the
   * verification that follows finds nothing extra: the digest file itself is
   * not an included file.
   */
  lemma WriteThenNoExtra(d: Disk, algorithm: string, directory: Path, checksums: Dict, timestamp: string,
                         hash: (Path, string) -> string, includes: seq<string>, excludes: seq<string>,
                         matches: (Path, string) -> bool)
    requires WellFormed(checksums) && Storable(checksums)
    requires NoNewline(algorithm) && NoNewline(timestamp)
    requires directory + [ShasumFilename] !in d.dirs
    requires (set n | n in checksums.keys) == IncludedCurrentFiles(d, directory, includes, excludes, matches)
    ensures var d' := WriteShasum(d, None, algorithm, directory, checksums, timestamp, NoFault).value;
      var r := DirectoryVerification(d', None, directory, hash, includes, excludes, matches);
      r.Some? && r.value.Report? ==> r.value.extra == {}
  {
    var path := directory + [ShasumFilename];
    var text := ShasumText(algorithm, timestamp, checksums);
    var d' := WriteFile(d, path, text);
    assert WriteShasum(d, None, algorithm, directory, checksums, timestamp, NoFault) == Some(d');
    ShasumRoundTrip(algorithm, timestamp, checksums);
    IncludedIgnoresDigest(d, directory, text, includes, excludes, matches);
    SameMembersNoneLeft(IncludedCurrentFiles(d, directory, includes, excludes, matches), checksums.keys, Sort(checksums.keys));
  }

  /** Taking away a list with the same members as the one a set was built from leaves nothing. */
  lemma SameMembersNoneLeft(current: set<string>, a: seq<string>, b: seq<string>)
    requires (set n | n in a) == current
    requires forall n :: n in b <==> n in a
    ensures current - (set n | n in b) == {}
  {
    forall n | n in current ensures n in (set m | m in b) {
      assert n in (set m | m in a);
    }
  }

  /**
   * Generate, then verify: writing a directory's digest file from the digests
   * of exactly its included files and then verifying the directory finds every
   * file verified, in sorted name order, and nothing failed, missing or extra.
   */
  lemma WriteThenVerify(d: Disk, algorithm: string, directory: Path, checksums: Dict, timestamp: string,
                        hash: (Path, string) -> string, includes: seq<string>, excludes: seq<string>,
                        matches: (Path, string) -> bool)
    requires WellFormed(checksums) && Storable(checksums)
    requires NoNewline(algorithm) && NoNewline(timestamp)
    requires directory in d.dirs && directory + [ShasumFilename] !in d.dirs + d.unreadable
    requires HashedFiles(d, directory, hash, checksums)
    requires (set n | n in checksums.keys) == IncludedCurrentFiles(d, directory, includes, excludes, matches)
    ensures var d' := WriteShasum(d, None, algorithm, directory, checksums, timestamp, NoFault).value;
      var r := DirectoryVerification(d', None, directory, hash, includes, excludes, matches);
      && r.Some? && r.value.Report?
      && r.value.verified == Sort(checksums.keys)
      && r.value.failed == [] && r.value.missing == [] && r.value.extra == {}
  {
    WriteThenReport(d, algorithm, directory, checksums, timestamp, hash, includes, excludes, matches);
    WriteThenNoExtra(d, algorithm, directory, checksums, timestamp, hash, includes, excludes, matches);
  }

  /** The digest file itself is never an included file, so writing it changes no directory's included files. */
  lemma IncludedIgnoresDigest(d: Disk, directory: Path, text: string, includes: seq<string>, excludes: seq<string>,
                              matches: (Path, string) -> bool)
    ensures IncludedCurrentFiles(WriteFile(d, directory + [ShasumFilename], text), directory, includes, excludes, matches)
      == IncludedCurrentFiles(d, directory, includes, excludes, matches)
  {
    var d' := WriteFile(d, directory + [ShasumFilename], text);
    forall n ensures n in IncludedCurrentFiles(d', directory, includes, excludes, matches)
      <==> n in IncludedCurrentFiles(d, directory, includes, excludes, matches)
    {
      FilesInMember(d, directory, n);
      FilesInMember(d', directory, n);
      if n == ShasumFilename {
        assert Reserved(directory + [n]);
      } else {
        assert directory + [n] != directory + [ShasumFilename] by {
          assert (directory + [n])[|directory|] == n;
        }
      }
    }
  }

  // ------------------------------------------------------------ resume

  /** rglob('.shasum'): every file or directory of that name at or below `root`, by its directory. */
  function ShasumDirsBelow(d: Disk, root: Path): set<Path>
  {
    set p | p in d.files.Keys + d.dirs && p != [] && Name(p) == ShasumFilename && root <= Parent(p) :: Parent(p)
  }

  /** `(root / Path(rel).parent)`: the directory a tree-wide entry's path names. */
  function EntryDir(root: Path, rel: string): Path
  {
    if rel != [] && rel[0] == '/' then Parent(Components(rel))
    else
      var c := Components(rel);
      if c == [] then root else root + c[..|c| - 1]
  }

  /** The relative path of a data line, as the resume scan splits it. */
  function DataPath(line: string): Option<string>
  {
    match ParseLine(line)
    case None => None
    case Some((rel, _)) => Some(rel)
  }

  /** The directories of all data lines of a tree-wide file, with or without its end marker. */
  function MonolithicDirs(root: Path, ls: seq<string>): set<Path>
  {
    if ls == [] then {}
    else
      var last := ls[|ls| - 1];
      MonolithicDirs(root, ls[..|ls| - 1]) + (if DataPath(last).Some? then {EntryDir(root, DataPath(last).value)} else {})
  }

  /** The relative paths of all data lines. */
  function MonolithicRels(ls: seq<string>): set<string>
  {
    if ls == [] then {}
    else
      var last := ls[|ls| - 1];
      MonolithicRels(ls[..|ls| - 1]) + (if DataPath(last).Some? then {DataPath(last).value} else {})
  }

  /** Every data line contributes its directory and its path. */
  lemma {:induction false} MonolithicMembers(root: Path, ls: seq<string>, k: nat)
    requires k < |ls| && DataPath(ls[k]).Some?
    ensures EntryDir(root, DataPath(ls[k]).value) in MonolithicDirs(root, ls)
    ensures DataPath(ls[k]).value in MonolithicRels(ls)
    decreases |ls|
  {
    if k < |ls| - 1 {
      var init := ls[..|ls| - 1];
      assert init[k] == ls[k];
      MonolithicMembers(root, init, k);
    }
  }

  /** For a relative path with at least one component, or an absolute one, the entry's directory is the joined path's parent. */
  lemma EntryDirIsParent(root: Path, rel: string)
    requires (rel == [] || rel[0] != '/') ==> Components(rel) != []
    ensures EntryDir(root, rel) == Parent(JoinStr(root, rel))
  {
    if rel == [] || rel[0] != '/' {
      var c := Components(rel);
      assert (root + c)[..|root + c| - 1] == root + c[..|c| - 1];
    }
  }

  /**
   * A line appended for a directory at or below the root leads the resume
   * scan back to exactly that directory.
   */
  lemma AppendedLineResumes(directory: Path, root: Path, name: string, hash: string)
    requires root <= directory && CleanPath(directory) && PlainName(name) && StorableHash(hash)
    requires forall i :: 0 <= i < |directory| ==> '\\' !in directory[i] && directory[i] != ".."
    requires forall i :: 0 <= i < |directory| ==> NoNewline(directory[i])
    ensures DataPath(EntryLine(hash, EntryPath(directory, name, root))) == Some(EntryPath(directory, name, root))
    ensures EntryDir(root, EntryPath(directory, name, root)) == directory
  {
    var rel := EntryPath(directory, name, root);
    AppendedLineReadsBack(directory, root, name, hash);
    if rel == [] || rel[0] != '/' {
      assert root + Components(rel) == directory + [name];
      assert |Components(rel)| > 0;
    }
    EntryDirIsParent(root, rel);
  }

  /** Any line of the file that a directory's append wrote puts that directory in the resume set. */
  lemma ResumeFindsAppendedDirectory(ls: seq<string>, k: nat, directory: Path, root: Path, name: string, hash: string)
    requires root <= directory && CleanPath(directory) && PlainName(name) && StorableHash(hash)
    requires forall i :: 0 <= i < |directory| ==> '\\' !in directory[i] && directory[i] != ".."
    requires forall i :: 0 <= i < |directory| ==> NoNewline(directory[i])
    requires k < |ls| && ls[k] == EntryLine(hash, EntryPath(directory, name, root))
    ensures directory in MonolithicDirs(root, ls)
  {
    AppendedLineResumes(directory, root, name, hash);
    MonolithicMembers(root, ls, k);
  }

  /** One more line adds its directory and its path, if it is a data line. */
  lemma MonolithicSnoc(root: Path, ls: seq<string>)
    requires ls != []
    ensures var last := ls[|ls| - 1];
      && MonolithicDirs(root, ls) == MonolithicDirs(root, ls[..|ls| - 1]) +
           (match DataPath(last) case Some(rel) => {EntryDir(root, rel)} case None => {})
      && MonolithicRels(ls) == MonolithicRels(ls[..|ls| - 1]) +
           (match DataPath(last) case Some(rel) => {rel} case None => {})
  {
  }

  /** The resume scan's loop over the lines of the tree-wide file. */
  method ScanMonolithicLines(root: Path, ls: seq<string>) returns (dirs: set<Path>, rels: set<string>)
    ensures dirs == MonolithicDirs(root, ls) && rels == MonolithicRels(ls)
  {
    dirs, rels := {}, {};
    for i := 0 to |ls|
      invariant dirs == MonolithicDirs(root, ls[..i])
      invariant rels == MonolithicRels(ls[..i])
    {
      assert ls[..i + 1][..i] == ls[..i];
      MonolithicSnoc(root, ls[..i + 1]);
      match DataPath(ls[i]) {
        case Some(rel) =>
          rels := rels + {rel};
          dirs := dirs + {EntryDir(root, rel)};
        case None =>
      }
    }
    assert ls[..|ls|] == ls;
  }

  /**
   * The callback of process_directory_tree as the walker sees it: a directory
   * that _should_skip_directory names returns normally; any other raises when
   * `raises` says so.
   */
  function CallbackFails(resumeMode: bool, processed: set<Path>, t: DirTree, raises: Path -> bool): Path -> bool
  {
    p => !(resumeMode && Key(t, p) in processed) && raises(p)
  }

  /**
   * Skipping happens inside the callback, so a skipped directory still counts
   * as processed by the walker and its sub-directories are still walked.
   */
  lemma SkippedDirectoriesStillDescended(t: DirTree, processed: set<Path>, raises: Path -> bool, follow: bool, root: Path)
    ensures var w := Walk(t, CallbackFails(true, processed, t, raises), true, follow, [root], {}, {});
      forall i, e :: 0 <= i < |w.calls| && Key(t, w.calls[i].dir) in processed && w.calls[i].dir in t.listing
                     && e in t.listing[w.calls[i].dir] && e.kind == Directory ==>
        Visited(t, w.paths, w.inodes, e.path)
  {
    var fails := CallbackFails(true, processed, t, raises);
    WalkOkMatchesCallback(t, fails, true, follow, [root], {}, {});
    WalkComplete(t, fails, follow, [root], {}, {});
  }

  // ------------------------------------------------------------ the generator

  class ChecksumGenerator {
    const algorithm: string
    const includes: seq<string>
    const excludes: seq<string>
    const matches: (Path, string) -> bool
    const generateIndividual: bool
    const generateMonolithic: bool
    const outputFile: Option<string>
    const shadow: Option<Resolver>
    const resumeMode: bool
    var processedDirectories: set<Path>
    /** Filled by the resume scan and never read afterwards. */
    var existingMonolithicEntries: set<string>

    /**
     * The pattern lists as __init__ sets them: the given excludes or the two
     * reserved names, plus the tree-wide file's `.tmp` name when one is written.
     */
    constructor(algorithm: string, includes: seq<string>, excludes: seq<string>, matches: (Path, string) -> bool,
                generateIndividual: bool, generateMonolithic: bool, outputFile: Option<string>,
                shadow: Option<Resolver>, resumeMode: bool)
      ensures this.algorithm == Lower(algorithm) && this.includes == includes
      ensures var base := if excludes != [] then excludes else [ShasumFilename, StateFilename];
        this.excludes == base + (if generateMonolithic then [TempFilename(outputFile, Lower(algorithm))] else [])
      ensures this.matches == matches && this.shadow == shadow && this.outputFile == outputFile
      ensures this.generateIndividual == generateIndividual && this.generateMonolithic == generateMonolithic
      ensures this.resumeMode == resumeMode
      ensures processedDirectories == {} && existingMonolithicEntries == {}
    {
      this.algorithm := Lower(algorithm);
      this.includes := includes;
      var base := if excludes != [] then excludes else [ShasumFilename, StateFilename];
      this.excludes := base + (if generateMonolithic then [TempFilename(outputFile, Lower(algorithm))] else []);
      this.matches := matches;
      this.generateIndividual := generateIndividual;
      this.generateMonolithic := generateMonolithic;
      this.outputFile := outputFile;
      this.shadow := shadow;
      this.resumeMode := resumeMode;
      processedDirectories := {};
      existingMonolithicEntries := {};
    }

    /** _get_monolithic_path. */
    function MonolithicPath(root: Path): Path
    {
      match shadow
      case Some(r) => ShadowMonolithicPath(r, algorithm, outputFile)
      case None =>
        if outputFile.Some? && outputFile.value != [] then JoinStr(root, outputFile.value)
        else root + [MonolithicDefaultName + "." + algorithm]
    }

    /** _should_skip_directory, on the resolved directory. */
    predicate ShouldSkipDirectory(resolved: Path)
      reads this
    {
      resumeMode && resolved in processedDirectories
    }

    /** The directories whose `.shasum` files the resume scan finds. */
    function IndividualDirs(d: Disk, root: Path): set<Path>
    {
      match shadow
      case None => ShasumDirsBelow(d, root)
      case Some(r) =>
        set p | p in ShasumDirsBelow(d, r.shadowRoot) && SourceDirOfShadow(r, p).Some? :: SourceDirOfShadow(r, p).value
    }

    /**
     * _initialize_resume_state: nothing outside resume mode; otherwise the
     * directories holding `.shasum` files, and the directory of every data
     * line of an existing tree-wide file (a file that cannot be read adds
     * nothing).
     */
    method InitializeResumeState(d: Disk, root: Path)
      modifies this
      ensures !resumeMode ==> processedDirectories == old(processedDirectories)
      ensures resumeMode ==>
        var mpath := MonolithicPath(root);
        var ls := if generateMonolithic && Exists(d, mpath) && Read(d, mpath).Some?
                  then Lines(UniversalNewlines(Read(d, mpath).value)) else [];
        && processedDirectories == old(processedDirectories)
             + (if generateIndividual then IndividualDirs(d, root) else {})
             + MonolithicDirs(root, ls)
        && existingMonolithicEntries == old(existingMonolithicEntries) + MonolithicRels(ls)
    {
      if !resumeMode {
        return;
      }
      if generateIndividual {
        processedDirectories := processedDirectories + IndividualDirs(d, root);
      }
      var mpath := MonolithicPath(root);
      var ls: seq<string> := [];
      if generateMonolithic && Exists(d, mpath) && Read(d, mpath).Some? {
        ls := Lines(UniversalNewlines(Read(d, mpath).value));
      }
      var dirs, rels := ScanMonolithicLines(root, ls);
      processedDirectories := processedDirectories + dirs;
      existingMonolithicEntries := existingMonolithicEntries + rels;
    }

    /** verify_checksums_in_directory: the shared entry loop, then `extra` as a set difference. */
    method VerifyChecksumsInDirectory(d: Disk, directory: Path, hash: (Path, string) -> string) returns (r: Option<VerifyResult>)
      ensures r == DirectoryVerification(d, shadow, directory, hash, includes, excludes, matches)
    {
      var path := ShasumPathFor(shadow, directory);
      if path.None? {
        return None;
      }
      if !Exists(d, path.value) {
        return Some(VerifyError("No .shasum file found in " + PathString(path.value)));
      }
      var text := Read(d, path.value);
      if text.None? {
        return Some(VerifyError("Error reading " + PathString(path.value)));
      }
      if directory !in d.dirs {
        return None;
      }
      var stored := ParseDigest(text.value);
      StoredKeysPresent(stored);
      var verified, failed, missing := CheckEntries(d, stored, EntryBase(shadow, directory), hash);
      var current := IncludedCurrentFiles(d, directory, includes, excludes, matches);
      r := Some(Report(verified, failed, missing, current - set n | n in stored.keys));
    }

    /** verify_monolithic_file. */
    method VerifyMonolithicFile(d: Disk, monolithicFile: Path, rootDirectory: Path, hash: (Path, string) -> string)
      returns (r: VerifyResult)
      ensures r == MonolithicVerification(d, monolithicFile, rootDirectory, hash)
    {
      if !Exists(d, monolithicFile) {
        return VerifyError("Monolithic file not found: " + PathString(monolithicFile));
      }
      var text := Read(d, monolithicFile);
      if text.None? {
        return VerifyError("Error reading monolithic file");
      }
      var stored := ParseDigest(text.value);
      StoredKeysPresent(stored);
      var verified, failed, missing := CheckEntries(d, stored, rootDirectory, hash);
      r := Report(verified, failed, missing, {});
    }
  }

  /** The temp-file name __init__ adds to the excludes: the output name or `checksums.<algorithm>`, plus `.tmp`. */
  function TempFilename(outputFile: Option<string>, algorithm: string): string
  {
    if outputFile.Some? && outputFile.value != [] then Name(Components(outputFile.value)) + ".tmp"
    else MonolithicDefaultName + "." + algorithm + ".tmp"
  }
}
