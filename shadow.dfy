/**
 * ShadowPathResolver: where digest files go when they are kept in a separate
 * "shadow" tree that mirrors the source tree.
 */
module Shadow {
  import opened Wrappers
  import opened Text
  import opened Constants
  import opened Paths

  /** Both roots as resolved paths. */
  datatype Resolver = Resolver(sourceRoot: Path, shadowRoot: Path)

  /**
   * get_shadow_shasum_path: the directory's place below the source root,
   * mirrored below the shadow root, with `.shasum` appended; None stands for
   * the ValueError raised for a directory outside the source root.
   */
  function ShadowShasumPath(r: Resolver, sourceDir: Path): (p: Option<Path>)
    ensures p.Some? <==> r.sourceRoot <= sourceDir
    ensures p.Some? ==> p.value == r.shadowRoot + sourceDir[|r.sourceRoot|..] + [ShasumFilename]
  {
    match RelativeTo(sourceDir, r.sourceRoot)
    case None => None
    case Some(rel) => Some(r.shadowRoot + rel + [ShasumFilename])
  }

  /** get_source_file_path: a name stored in a shadow digest file, resolved against the source root. */
  function SourceFilePath(r: Resolver, relative: string): (p: Path)
    ensures (relative == [] || relative[0] != '/') ==> r.sourceRoot <= p
  {
    JoinStr(r.sourceRoot, relative)
  }

  /** get_shadow_monolithic_path: the custom name below the shadow root, or `checksums.<algorithm>`. */
  function ShadowMonolithicPath(r: Resolver, algorithm: string, outputFilename: Option<string>): (p: Path)
    ensures (outputFilename.None? || outputFilename.value == []) ==>
      p == r.shadowRoot + [MonolithicDefaultName + "." + algorithm]
    ensures outputFilename.Some? && outputFilename.value != [] ==> p == JoinStr(r.shadowRoot, outputFilename.value)
  {
    match outputFilename
    case Some(name) => if name != [] then JoinStr(r.shadowRoot, name) else r.shadowRoot + [MonolithicDefaultName + "." + algorithm]
    case None => r.shadowRoot + [MonolithicDefaultName + "." + algorithm]
  }

  /**
   * The resume scan's way back from a shadow `.shasum` file's directory to
   * the source directory: its place below the shadow root, mirrored below the
   * source root (the "." case gives the source root itself).
   */
  function SourceDirOfShadow(r: Resolver, shadowDir: Path): Option<Path>
  {
    match RelativeTo(shadowDir, r.shadowRoot)
    case None => None
    case Some(rel) => Some(r.sourceRoot + rel)
  }

  /** A directory's shadow digest file leads the resume scan back to that directory. */
  lemma ShadowRoundTrip(r: Resolver, sourceDir: Path)
    requires r.sourceRoot <= sourceDir
    ensures ShadowShasumPath(r, sourceDir).Some?
    ensures SourceDirOfShadow(r, Parent(ShadowShasumPath(r, sourceDir).value)) == Some(sourceDir)
  {
    var rel := sourceDir[|r.sourceRoot|..];
    var p := r.shadowRoot + rel + [ShasumFilename];
    assert Parent(p) == r.shadowRoot + rel;
    assert (r.shadowRoot + rel)[|r.shadowRoot|..] == rel;
    assert r.sourceRoot + rel == sourceDir;
  }

  /** Different source directories get different shadow digest files. */
  lemma ShadowInjective(r: Resolver, a: Path, b: Path)
    requires ShadowShasumPath(r, a).Some? && ShadowShasumPath(r, b).Some?
    requires ShadowShasumPath(r, a) == ShadowShasumPath(r, b)
    ensures a == b
  {
    ShadowRoundTrip(r, a);
    ShadowRoundTrip(r, b);
  }

  /**
   * A name stored in a shadow digest file is looked up below the source root,
   * wherever the directory being verified lies: for a directory strictly
   * below the root, the looked-up path is not the file in that directory.
   */
  lemma ShadowLookupIgnoresDirectory(r: Resolver, dir: Path, name: string)
    requires r.sourceRoot <= dir && |dir| > |r.sourceRoot|
    requires CleanComponent(name)
    ensures SourceFilePath(r, name) == r.sourceRoot + [name]
    ensures SourceFilePath(r, name) != dir + [name]
  {
    assert CleanPath([name]);
    JoinStrOfJoin(r.sourceRoot, [name]);
    assert RelText([name]) == name;
    assert |r.sourceRoot + [name]| < |dir + [name]|;
  }
}
