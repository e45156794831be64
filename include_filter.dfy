/**
 * Which regular files take part in checksumming: the reserved names are always
 * left out, then the exclude patterns, then the include patterns if any.
 * Glob matching itself (Path.match) is an oracle `matches(path, pattern)`.
 */
module IncludeFilter {
  import opened Paths
  import opened Constants

  predicate Reserved(p: Path)
  {
    Name(p) == ShasumFilename || Name(p) == StateFilename
  }

  /** Whether some pattern of `patterns` matches p, scanning them in order. */
  function AnyMatch(p: Path, patterns: seq<string>, matches: (Path, string) -> bool): (r: bool)
    ensures r <==> exists i :: 0 <= i < |patterns| && matches(p, patterns[i])
  {
    if patterns == [] then false
    else if matches(p, patterns[0]) then true
    else
      var r := AnyMatch(p, patterns[1..], matches);
      assert forall i :: 1 <= i < |patterns| ==> patterns[i] == patterns[1..][i - 1];
      r
  }

  /** _should_include_file_simple. */
  function ShouldIncludeFile(p: Path, includes: seq<string>, excludes: seq<string>,
                             matches: (Path, string) -> bool): (r: bool)
    ensures Reserved(p) ==> !r
    ensures r ==> forall i :: 0 <= i < |excludes| ==> !matches(p, excludes[i])
    ensures r && includes != [] ==> exists i :: 0 <= i < |includes| && matches(p, includes[i])
    ensures (&& !Reserved(p)
             && (forall i :: 0 <= i < |excludes| ==> !matches(p, excludes[i]))
             && (includes == [] || exists i :: 0 <= i < |includes| && matches(p, includes[i])))
            ==> r
  {
    if Reserved(p) then false
    else if AnyMatch(p, excludes, matches) then false
    else if includes != [] then AnyMatch(p, includes, matches)
    else true
  }
}
