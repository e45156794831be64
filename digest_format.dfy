/**
 * The digest text formats: the per-directory `.shasum` file (a comment header,
 * `hash  name` lines sorted by name, an end marker), the reader shared by
 * verification, and the check that tells a tree-wide file from a
 * per-directory one.
 */
module DigestFormat {
  import opened Wrappers
  import opened Text
  import opened Constants
  import opened Ordering

  /**
   * A Python dict from names to hashes: the keys in insertion order, and the
   * values. Every value is kept under a key that is listed once.
   */
  datatype Dict = Dict(keys: seq<string>, values: map<string, string>)

  ghost predicate WellFormed(d: Dict)
  {
    Distinct(d.keys) && forall k :: k in d.values <==> k in d.keys
  }

  const EmptyDict := Dict([], map[])

  /** d[k] = v: a new key goes last, an existing one keeps its place and takes the new value. */
  function Put(d: Dict, k: string, v: string): (r: Dict)
    requires WellFormed(d)
    ensures WellFormed(r) && r.values == d.values[k := v]
    ensures k in d.values ==> r.keys == d.keys
    ensures k !in d.values ==> r.keys == d.keys + [k]
  {
    if k in d.values then Dict(d.keys, d.values[k := v]) else Dict(d.keys + [k], d.values[k := v])
  }

  // ---------------------------------------------------------------- reading

  /**
   * One line of a digest file: stripped; blank and `#` lines carry nothing;
   * otherwise split at the first two spaces into hash and name, the hash
   * lower-cased. A line without two spaces carries nothing either.
   */
  function ParseLine(line: string): (r: Option<(string, string)>)
    ensures r.Some? ==> Strip(line) != [] && Strip(line)[0] != '#'
  {
    var l := Strip(line);
    if l == [] || l[0] == '#' then None
    else match SplitFirst(l)
      case None => None
      case Some((h, n)) => Some((n, Lower(h)))
  }

  function ParseLines(ls: seq<string>, acc: Dict): (r: Dict)
    requires WellFormed(acc)
    ensures WellFormed(r)
  {
    if ls == [] then acc
    else
      var next := match ParseLine(ls[0])
        case None => acc
        case Some((n, h)) => Put(acc, n, h);
      ParseLines(ls[1..], next)
  }

  /** The name-to-hash dict read from a digest file's text, later lines overriding earlier ones. */
  function ParseDigest(text: string): (r: Dict)
    ensures WellFormed(r)
  {
    ParseLines(Lines(UniversalNewlines(text)), EmptyDict)
  }

  lemma {:induction false} ParseLinesAppend(a: seq<string>, b: seq<string>, acc: Dict)
    requires WellFormed(acc)
    ensures ParseLines(a + b, acc) == ParseLines(b, ParseLines(a, acc))
    decreases |a|
  {
    if a == [] {
      assert a + b == b;
    } else {
      assert (a + b)[1..] == a[1..] + b;
      var next := match ParseLine(a[0])
        case None => acc
        case Some((n, h)) => Put(acc, n, h);
      ParseLinesAppend(a[1..], b, next);
    }
  }

  /** A name as the writer can store it so that it reads back: one line, not ending in whitespace. */
  predicate StorableName(n: string)
  {
    n != [] && NoNewline(n) && !IsSpace(n[|n| - 1])
  }

  /** What hexdigest() produces. */
  predicate StorableHash(h: string)
  {
    h != [] && IsLowerHex(h)
  }

  predicate Storable(d: Dict)
  {
    forall n :: n in d.values ==> StorableName(n) && StorableHash(d.values[n])
  }

  // ---------------------------------------------------------------- writing

  function EntryLine(h: string, n: string): string
  {
    h + "  " + n
  }

  /** One `hash  name` line per name, in the order given. */
  function EntryLines(names: seq<string>, values: map<string, string>): (r: seq<string>)
    requires forall i :: 0 <= i < |names| ==> names[i] in values
    ensures |r| == |names|
  {
    seq(|names|, i requires 0 <= i < |names| => EntryLine(values[names[i]], names[i]))
  }

  function ShasumHeaderLine(algorithm: string, timestamp: string): string
  {
    "# Dazzle checksum tool v" + Version + " - " + algorithm + " - " + timestamp
  }

  function ShasumLines(algorithm: string, timestamp: string, d: Dict): seq<string>
    requires WellFormed(d)
  {
    [ShasumHeaderLine(algorithm, timestamp)] + EntryLines(Sort(d.keys), d.values) + [FooterLine]
  }

  /** The text write_shasum_file produces: header, entries sorted by name, end marker. */
  function ShasumText(algorithm: string, timestamp: string, d: Dict): string
    requires WellFormed(d)
  {
    Unlines(ShasumLines(algorithm, timestamp, d))
  }

  // ------------------------------------------------------------ round trip

  lemma ParseEntryLine(h: string, n: string)
    requires StorableHash(h) && StorableName(n)
    ensures ParseLine(EntryLine(h, n)) == Some((n, h))
  {
    var line := EntryLine(h, n);
    assert line[0] == h[0];
    assert line[|line| - 1] == n[|n| - 1];
    StripUnchanged(line);
    SplitFirstOfPair(h, n);
    LowerOfLowerHex(h);
  }

  lemma ParseCommentLine(line: string)
    requires line != [] && line[0] == '#'
    ensures ParseLine(line) == None
  {
    StripKeepsFirst(line);
  }

  function Restrict(values: map<string, string>, names: seq<string>): map<string, string>
  {
    map n | n in names && n in values :: values[n]
  }

  /** Restricting to a list that holds every key keeps the whole map. */
  lemma RestrictAll(values: map<string, string>, names: seq<string>)
    requires forall k :: k in values <==> k in names
    ensures Restrict(values, names) == values
  {
  }

  lemma RestrictWellFormed(names: seq<string>, values: map<string, string>)
    requires Distinct(names)
    requires forall i :: 0 <= i < |names| ==> names[i] in values
    ensures WellFormed(Dict(names, Restrict(values, names)))
  {
  }

  lemma EntryLinesSnoc(names: seq<string>, values: map<string, string>)
    requires names != []
    requires forall i :: 0 <= i < |names| ==> names[i] in values
    ensures var n := names[|names| - 1];
      EntryLines(names, values) == EntryLines(names[..|names| - 1], values) + [EntryLine(values[n], n)]
  {
  }

  lemma ParseOneLine(line: string, acc: Dict)
    requires WellFormed(acc)
    ensures ParseLines([line], acc) == match ParseLine(line)
      case None => acc
      case Some((n, h)) => Put(acc, n, h)
  {
    assert [line][1..] == [];
  }

  /** Reading back entry lines for distinct names rebuilds the dict in the same order. */
  lemma {:induction false} ParseEntries(names: seq<string>, values: map<string, string>)
    requires Distinct(names)
    requires forall i :: 0 <= i < |names| ==> names[i] in values
    requires forall i :: 0 <= i < |names| ==> StorableName(names[i]) && StorableHash(values[names[i]])
    ensures ParseLines(EntryLines(names, values), EmptyDict) == Dict(names, Restrict(values, names))
    decreases |names|
  {
    if names != [] {
      var init := names[..|names| - 1];
      var n := names[|names| - 1];
      assert names == init + [n];
      EntryLinesSnoc(names, values);
      ParseEntries(init, values);
      ParseLinesAppend(EntryLines(init, values), [EntryLine(values[n], n)], EmptyDict);
      var prev := Dict(init, Restrict(values, init));
      RestrictWellFormed(init, values);
      ParseOneLine(EntryLine(values[n], n), prev);
      ParseEntryLine(values[n], n);
      assert n !in init;
      assert Put(prev, n, values[n]).keys == names;
      assert Restrict(values, init)[n := values[n]] == Restrict(values, names);
    } else {
      assert Restrict(values, names) == map[];
    }
  }

  lemma {:induction false} NoCrInUnlines(ls: seq<string>)
    requires forall i :: 0 <= i < |ls| ==> '\r' !in ls[i]
    ensures '\r' !in Unlines(ls)
    decreases |ls|
  {
    if ls != [] {
      NoCrInUnlines(ls[1..]);
    }
  }

  lemma HexPlain(h: string)
    requires IsLowerHex(h)
    ensures NoNewline(h) && ' ' !in h && '#' !in h
  {
  }

  lemma HeaderPlain(algorithm: string, timestamp: string)
    requires NoNewline(algorithm) && NoNewline(timestamp)
    ensures NoNewline(ShasumHeaderLine(algorithm, timestamp))
  {
    var lead := "# Dazzle checksum tool v";
    var dash := " - ";
    assert NoNewline(lead) && NoNewline(Version) && NoNewline(dash);
    NoNewlineConcat(lead, Version);
    NoNewlineConcat(lead + Version, dash);
    NoNewlineConcat(lead + Version + dash, algorithm);
    NoNewlineConcat(lead + Version + dash + algorithm, dash);
    NoNewlineConcat(lead + Version + dash + algorithm + dash, timestamp);
  }

  lemma ShasumLinesPlain(algorithm: string, timestamp: string, d: Dict)
    requires WellFormed(d) && Storable(d) && NoNewline(algorithm) && NoNewline(timestamp)
    ensures var ls := ShasumLines(algorithm, timestamp, d);
      forall i :: 0 <= i < |ls| ==> NoNewline(ls[i])
  {
    var ls := ShasumLines(algorithm, timestamp, d);
    var names := Sort(d.keys);
    HeaderPlain(algorithm, timestamp);
    forall i | 0 <= i < |ls| ensures NoNewline(ls[i]) {
      if 1 <= i <= |names| {
        var n := names[i - 1];
        assert ls[i] == EntryLine(d.values[n], n);
        HexPlain(d.values[n]);
      }
    }
  }

  /** The lines a reader gets from the per-directory text are the lines written. */
  lemma ShasumLinesRead(algorithm: string, timestamp: string, d: Dict)
    requires WellFormed(d) && Storable(d) && NoNewline(algorithm) && NoNewline(timestamp)
    ensures Lines(UniversalNewlines(ShasumText(algorithm, timestamp, d))) == ShasumLines(algorithm, timestamp, d)
  {
    var ls := ShasumLines(algorithm, timestamp, d);
    ShasumLinesPlain(algorithm, timestamp, d);
    NoCrInUnlines(ls);
    UniversalNewlinesWithoutCr(Unlines(ls));
    LinesOfUnlines(ls);
  }

  /** A comment line in front changes nothing. */
  lemma CommentFirst(line: string, rest: seq<string>, acc: Dict)
    requires WellFormed(acc) && line != [] && line[0] == '#'
    ensures ParseLines([line] + rest, acc) == ParseLines(rest, acc)
  {
    ParseCommentLine(line);
    assert ([line] + rest)[1..] == rest;
  }

  /** A comment line at the end changes nothing. */
  lemma CommentLast(ls: seq<string>, line: string, acc: Dict)
    requires WellFormed(acc) && line != [] && line[0] == '#'
    ensures ParseLines(ls + [line], acc) == ParseLines(ls, acc)
  {
    ParseLinesAppend(ls, [line], acc);
    ParseCommentLine(line);
    ParseOneLine(line, ParseLines(ls, acc));
  }

  /** Reading the per-directory text comes down to reading its entry lines. */
  lemma ShasumReadsEntries(algorithm: string, timestamp: string, d: Dict)
    requires WellFormed(d) && Storable(d)
    requires NoNewline(algorithm) && NoNewline(timestamp)
    ensures ParseDigest(ShasumText(algorithm, timestamp, d)) == ParseLines(EntryLines(Sort(d.keys), d.values), EmptyDict)
  {
    var header := ShasumHeaderLine(algorithm, timestamp);
    var entries := EntryLines(Sort(d.keys), d.values);
    ShasumLinesRead(algorithm, timestamp, d);
    assert ShasumLines(algorithm, timestamp, d) == ([header] + entries) + [FooterLine];
    CommentLast([header] + entries, FooterLine, EmptyDict);
    CommentFirst(header, entries, EmptyDict);
  }

  /**
   * Round trip of the per-directory format: reading what write_shasum_file
   * wrote gives back every name with its hash, in sorted name order.
   */
  lemma ShasumRoundTrip(algorithm: string, timestamp: string, d: Dict)
    requires WellFormed(d) && Storable(d)
    requires NoNewline(algorithm) && NoNewline(timestamp)
    ensures ParseDigest(ShasumText(algorithm, timestamp, d)) == Dict(Sort(d.keys), d.values)
  {
    var names := Sort(d.keys);
    ShasumReadsEntries(algorithm, timestamp, d);
    SortedDistinct(names);
    ParseEntries(names, d.values);
    RestrictAll(d.values, names);
  }
}
