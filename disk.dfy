/**
 * The file system the writers and verifiers see: the text of every regular
 * file, the set of directories, and the files whose reading raises.
 */
module Disks {
  import opened Wrappers
  import opened Paths

  datatype Disk = Disk(files: map<Path, string>, dirs: set<Path>, unreadable: set<Path>)

  /** Path.exists(): true for regular files and directories alike. */
  predicate Exists(d: Disk, p: Path)
  {
    p in d.files || p in d.dirs
  }

  /** Reading a whole file as text; None when open() or read() raises. */
  function Read(d: Disk, p: Path): (r: Option<string>)
    ensures r.Some? <==> p in d.files && p !in d.unreadable
    ensures r.Some? ==> r.value == d.files[p]
  {
    if p in d.files && p !in d.unreadable then Some(d.files[p]) else None
  }

  function WriteFile(d: Disk, p: Path, text: string): (r: Disk)
    ensures r.files == d.files[p := text] && r.dirs == d.dirs && r.unreadable == d.unreadable
  {
    d.(files := d.files[p := text])
  }

  function RemoveFile(d: Disk, p: Path): (r: Disk)
    ensures r.files == d.files - {p} && r.dirs == d.dirs && r.unreadable == d.unreadable
  {
    d.(files := d.files - {p})
  }

  /** Every ancestor of p, p included: what mkdir(parents=True, exist_ok=True) leaves in place. */
  function Ancestors(p: Path): set<Path>
  {
    set k | 0 <= k <= |p| :: p[..k]
  }

  function MakeDirs(d: Disk, p: Path): (r: Disk)
    ensures r.files == d.files && r.unreadable == d.unreadable
    ensures r.dirs == d.dirs + Ancestors(p)
  {
    d.(dirs := d.dirs + Ancestors(p))
  }

  /** The names of the regular files directly inside `dir`. */
  function FilesIn(d: Disk, dir: Path): set<string>
  {
    set p | p in d.files && p != [] && Parent(p) == dir :: Name(p)
  }

  /** A name is listed in `dir` exactly when the file `dir / name` is there. */
  lemma FilesInMember(d: Disk, dir: Path, n: string)
    ensures n in FilesIn(d, dir) <==> dir + [n] in d.files
  {
    var p := dir + [n];
    if p in d.files {
      assert Parent(p) == dir && Name(p) == n;
    }
    if n in FilesIn(d, dir) {
      var q :| q in d.files && q != [] && Parent(q) == dir && Name(q) == n;
      assert q == Parent(q) + [Name(q)];
    }
  }
}
