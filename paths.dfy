/**
 * Absolute paths as sequences of components, with the pathlib and os.path
 * operations dazzlesum relies on: `/`, `.name`, `.parent`, `relative_to`,
 * `os.path.relpath` and the `.tmp`/`.bak` sibling names.
 */
module Paths {
  import opened Wrappers
  import opened Text

  /** An absolute, resolved path; [] is the root directory "/". */
  type Path = seq<string>

  /** str(path). */
  function PathString(p: Path): string
  {
    "/" + Join(p, '/')
  }

  /** A component as it appears in a resolved path. */
  predicate CleanComponent(c: string)
  {
    c != [] && c != "." && '/' !in c
  }

  predicate CleanPath(p: Path)
  {
    forall i :: 0 <= i < |p| ==> CleanComponent(p[i])
  }

  /** path.name: the last component, "" for the root. */
  function Name(p: Path): string
  {
    if p == [] then "" else p[|p| - 1]
  }

  /** path.parent: the root is its own parent. */
  function Parent(p: Path): (r: Path)
    ensures r <= p
    ensures p != [] ==> r + [Name(p)] == p
  {
    if p == [] then [] else p[..|p| - 1]
  }

  /** The components pathlib keeps from a path string: empty pieces and "." are dropped. */
  function Components(s: string): (r: seq<string>)
    ensures CleanPath(r)
  {
    Clean(SplitOn(s, '/'))
  }

  function Clean(pieces: seq<string>): (r: seq<string>)
    requires forall i :: 0 <= i < |pieces| ==> '/' !in pieces[i]
    ensures CleanPath(r)
    ensures |r| <= |pieces|
  {
    if pieces == [] then []
    else if pieces[0] == [] || pieces[0] == "." then Clean(pieces[1..])
    else [pieces[0]] + Clean(pieces[1..])
  }

  lemma {:induction false} CleanOfClean(pieces: seq<string>)
    requires CleanPath(pieces)
    ensures Clean(pieces) == pieces
    decreases |pieces|
  {
    if pieces != [] {
      CleanOfClean(pieces[1..]);
    }
  }

  /** `base / s`: an absolute string replaces the base, a relative one extends it. */
  function JoinStr(base: Path, s: string): (r: Path)
    ensures s != [] && s[0] == '/' ==> r == Components(s)
    ensures (s == [] || s[0] != '/') ==> base <= r
  {
    if s != [] && s[0] == '/' then Components(s) else base + Components(s)
  }

  /** Joining the text of a clean relative path puts its components back. */
  lemma JoinStrOfJoin(base: Path, rel: Path)
    requires CleanPath(rel)
    ensures JoinStr(base, RelText(rel)) == base + rel
  {
    if rel == [] {
      assert SplitOn(".", '/') == ["."];
      assert Clean(["."]) == Clean([]);
    } else {
      SplitOnJoin(rel, '/');
      CleanOfClean(rel);
      assert Join(rel, '/')[0] == rel[0][0] by {
        JoinStartsWith(rel, '/');
      }
    }
  }

  /** Joining a single clean name appends it as one component. */
  lemma JoinName(base: Path, name: string)
    requires CleanComponent(name)
    ensures JoinStr(base, name) == base + [name]
  {
    assert CleanPath([name]);
    JoinStrOfJoin(base, [name]);
    assert RelText([name]) == name;
  }

  lemma {:induction false} JoinStartsWith(parts: seq<string>, sep: char)
    requires parts != [] && parts[0] != []
    ensures Join(parts, sep) != [] && Join(parts, sep)[0] == parts[0][0]
  {
  }

  /** path.relative_to(base): None stands for the ValueError raised when base is not an ancestor. */
  function RelativeTo(target: Path, base: Path): (r: Option<Path>)
    ensures r.Some? <==> base <= target
    ensures r.Some? ==> base + r.value == target
  {
    if base <= target then Some(target[|base|..]) else None
  }

  function CommonPrefixLength(a: Path, b: Path): (k: nat)
    ensures k <= |a| && k <= |b|
    ensures a[..k] == b[..k]
    ensures k < |a| && k < |b| ==> a[k] != b[k]
  {
    if a == [] || b == [] || a[0] != b[0] then 0
    else
      var k := 1 + CommonPrefixLength(a[1..], b[1..]);
      assert a[..k] == [a[0]] + a[1..][..k - 1];
      assert b[..k] == [b[0]] + b[1..][..k - 1];
      k
  }

  /** os.path.relpath(target, start) on resolved paths: ".." up to the common ancestor, then down. */
  function RelPath(target: Path, start: Path): string
  {
    var k := CommonPrefixLength(target, start);
    var parts := seq(|start| - k, _ => "..") + target[k..];
    if parts == [] then "." else Join(parts, '/')
  }

  /** Below its start, relpath is the remaining components joined with "/". */
  lemma RelPathBelow(target: Path, start: Path)
    requires start <= target
    ensures RelPath(target, start) == RelText(target[|start|..])
  {
    var k := CommonPrefixLength(target, start);
    assert k == |start|;
    var ups := seq(|start| - k, _ => "..");
    assert ups == [];
    assert ups + target[k..] == target[k..];
  }

  /** The text of a relative path: its components joined with "/", "." when there are none. */
  function RelText(rel: Path): string
  {
    if rel == [] then "." else Join(rel, '/')
  }

  /** Joining relpath(target, start) back onto start gives the target. */
  lemma RelPathRoundTrip(target: Path, start: Path)
    requires start <= target && CleanPath(target)
    ensures JoinStr(start, RelPath(target, start)) == target
  {
    RelPathBelow(target, start);
    var rel := target[|start|..];
    assert CleanPath(rel) by {
      forall i | 0 <= i < |rel| ensures CleanComponent(rel[i]) {
        assert rel[i] == target[|start| + i];
      }
    }
    JoinStrOfJoin(start, rel);
    assert start + rel == target;
  }

  /** The sibling named like p with a suffix appended to its name (`str(p) + '.tmp'`, `with_suffix(suffix + '.bak')`). */
  function WithNameSuffix(p: Path, suffix: string): (r: Path)
    ensures p != [] ==> Parent(r) == Parent(p) && Name(r) == Name(p) + suffix
    ensures suffix != [] ==> r != p
  {
    if p == [] then [suffix] else Parent(p) + [Name(p) + suffix]
  }
}
