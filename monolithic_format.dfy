/**
 * The tree-wide ("monolithic") digest file: its two-line header, its
 * `hash  relative/path` lines, and is_monolithic_file, which scans the first
 * eleven lines of a digest file to tell the two formats apart.
 */
module MonolithicFormat {
  import opened Wrappers
  import opened Text
  import opened Constants
  import opened Ordering
  import opened Paths
  import opened Disks
  import opened DigestFormat

  function MonolithicHeaderLine(algorithm: string, timestamp: string): string
  {
    "# Dazzle monolithic checksum file v" + Version + " - " + algorithm + " - " + timestamp
  }

  function RootLine(root: Path): string
  {
    "# Root directory: " + PathString(root)
  }

  /** The two header lines MonolithicWriter.open writes to a fresh file. */
  function MonolithicHeader(algorithm: string, timestamp: string, root: Path): string
  {
    MonolithicHeaderLine(algorithm, timestamp) + "\n" + RootLine(root) + "\n"
  }

  /** The header gives its two lines ahead of the body's lines. */
  lemma HeaderLines(algorithm: string, timestamp: string, root: Path, body: string)
    requires NoNewline(MonolithicHeaderLine(algorithm, timestamp)) && NoNewline(RootLine(root))
    ensures Lines(UniversalNewlines(MonolithicHeader(algorithm, timestamp, root) + body)) ==
      [MonolithicHeaderLine(algorithm, timestamp), RootLine(root)] + Lines(UniversalNewlines(body))
  {
    var h, rl := MonolithicHeaderLine(algorithm, timestamp), RootLine(root);
    var ls := [h, rl];
    UnlinesPair(h, rl);
    assert MonolithicHeader(algorithm, timestamp, root) + body == Unlines(ls) + body;
    NoCrInUnlines(ls);
    UniversalNewlinesPrefix(Unlines(ls), body);
    LinesAfterUnlines(ls, UniversalNewlines(body));
  }

  /**
   * The two header lines are comments, so a tree-wide file reads as the dict
   * of its body alone.
   */
  lemma HeaderCarriesNothing(algorithm: string, timestamp: string, root: Path, body: string)
    requires NoNewline(MonolithicHeaderLine(algorithm, timestamp)) && NoNewline(RootLine(root))
    ensures ParseDigest(MonolithicHeader(algorithm, timestamp, root) + body) ==
      ParseLines(Lines(UniversalNewlines(body)), EmptyDict)
  {
    var h, rl := MonolithicHeaderLine(algorithm, timestamp), RootLine(root);
    var rest := Lines(UniversalNewlines(body));
    HeaderLines(algorithm, timestamp, root, body);
    assert [h, rl] + rest == [h] + ([rl] + rest);
    CommentFirst(h, [rl] + rest, EmptyDict);
    CommentFirst(rl, rest, EmptyDict);
  }

  /**
   * The root directory a tree-wide file records plays no part in what is
   * read from it: the same body under another recorded root gives the same dict.
   */
  lemma RecordedRootIgnored(algorithm: string, timestamp: string, rootA: Path, rootB: Path, body: string)
    requires NoNewline(MonolithicHeaderLine(algorithm, timestamp))
    requires NoNewline(RootLine(rootA)) && NoNewline(RootLine(rootB))
    ensures ParseDigest(MonolithicHeader(algorithm, timestamp, rootA) + body) ==
      ParseDigest(MonolithicHeader(algorithm, timestamp, rootB) + body)
  {
    HeaderCarriesNothing(algorithm, timestamp, rootA, body);
    HeaderCarriesNothing(algorithm, timestamp, rootB, body);
  }

  /** What the scan looks for in a blank or comment line. */
  predicate Marker(line: string)
  {
    var l := Lower(Strip(line));
    Contains(l, "monolithic") || Contains(l, "root directory:")
  }

  predicate HasSeparator(name: string)
  {
    '/' in name || '\\' in name
  }

  /**
   * The scan over lines numbered from i: a marker in a blank or comment line
   * decides yes; the first data line decides by whether its name holds a path
   * separator; past line 10 the answer is no.
   */
  function ScanHead(ls: seq<string>, i: nat): bool
    decreases |ls|
  {
    if ls == [] || i > 10 then false
    else
      var l := Strip(ls[0]);
      if l == [] || l[0] == '#' then
        if Marker(ls[0]) then true else ScanHead(ls[1..], i + 1)
      else
        match SplitFirst(l)
        case Some((_, name)) => HasSeparator(name)
        case None => false
  }

  function IsMonolithicText(text: string): bool
  {
    ScanHead(Lines(UniversalNewlines(text)), 0)
  }

  /** is_monolithic_file: a file that cannot be opened or read is not monolithic. */
  function IsMonolithicFile(d: Disk, p: Path): bool
  {
    match Read(d, p)
    case None => false
    case Some(text) => IsMonolithicText(text)
  }

  const MonolithicMark: string := "# Dazzle monolithic"

  /** An occurrence of a lower-case word survives lower-casing. */
  lemma OccursLowered(s: string, sub: string, i: nat)
    requires OccursAt(s, sub, i) && Lower(sub) == sub
    ensures OccursAt(Lower(s), sub, i)
  {
    forall k | 0 <= k < |sub| ensures Lower(s)[i + k] == sub[k] {
      assert s[i + k] == sub[k];
      assert LowerChar(sub[k]) == sub[k] by { assert Lower(sub)[k] == LowerChar(sub[k]); }
    }
    assert Lower(s)[i..i + |sub|] == sub;
  }

  lemma MarkedLine(line: string)
    requires StartsWith(line, MonolithicMark)
    ensures Marker(line)
  {
    var p := MonolithicMark;
    StripKeepsPrefix(p, line[|p|..]);
    assert line == p + line[|p|..];
    var t := Strip(line);
    assert t[..|p|] == p;
    assert t[9..19] == p[9..19];
    assert p[9..19] == "monolithic";
    assert Lower("monolithic") == "monolithic";
    OccursLowered(t, "monolithic", 9);
  }

  /** A first line that begins with the tree-wide mark decides the scan. */
  lemma MarkedFirstLine(ls: seq<string>)
    requires ls != [] && StartsWith(ls[0], MonolithicMark)
    ensures ScanHead(ls, 0)
  {
    assert ls[0][0] == '#';
    StripKeepsFirst(ls[0]);
    MarkedLine(ls[0]);
  }

  /** A text whose first characters are the tree-wide mark is recognised as tree-wide. */
  lemma MarkedTextDetected(text: string)
    requires StartsWith(text, MonolithicMark)
    ensures IsMonolithicText(text)
  {
    var p := MonolithicMark;
    var rest := text[|p|..];
    assert text == p + rest;
    UniversalNewlinesPrefix(p, rest);
    FirstLineStartsWith(p, UniversalNewlines(rest));
    MarkedFirstLine(Lines(UniversalNewlines(text)));
  }

  /** Whatever follows it, a text that begins with the tree-wide header is recognised as tree-wide. */
  lemma MonolithicHeaderDetected(algorithm: string, timestamp: string, root: Path, body: string)
    ensures IsMonolithicText(MonolithicHeader(algorithm, timestamp, root) + body)
  {
    var text := MonolithicHeader(algorithm, timestamp, root) + body;
    assert text[..|MonolithicMark|] == MonolithicMark;
    MarkedTextDetected(text);
  }

  lemma NoOccurrence(l: string, sub: string)
    requires sub != []
    requires forall i :: 0 <= i <= |l| - |sub| ==> l[i] != sub[0]
    ensures !Contains(l, sub)
  {
    forall i | 0 <= i <= |l| - |sub| ensures !OccursAt(l, sub, i) {
      assert l[i..i + |sub|][0] == l[i];
    }
  }

  /** A line whose ends are not blank and whose leading characters rule out both markers carries none. */
  lemma Unmarked(f: string)
    requires f != [] && !IsSpace(f[0]) && !IsSpace(f[|f| - 1])
    requires forall i :: 0 <= i <= |f| - 10 ==> LowerChar(f[i]) != 'm'
    requires forall i :: 0 <= i <= |f| - 15 ==> LowerChar(f[i]) != 'r'
    ensures !Marker(f)
  {
    StripUnchanged(f);
    var l := Lower(f);
    NoOccurrence(l, "monolithic");
    NoOccurrence(l, "root directory:");
  }

  /** The end marker carries no marker. */
  lemma FooterUnmarked(f: string)
    requires f == FooterLine
    ensures !Marker(f)
  {
    assert |f| == 18 && f[0] == '#' && f[17] == 's';
    assert f[1] == ' ' && f[2] == 'E' && f[3] == 'n' && f[4] == 'd';
    assert f[5] == ' ' && f[6] == 'o' && f[7] == 'f' && f[8] == ' ';
    Unmarked(f);
  }

  /**
   * A per-directory file is taken for a tree-wide one exactly when its first
   * (smallest) name holds a path separator, provided its header line carries
   * no marker.
   */
  lemma ShasumDetection(algorithm: string, timestamp: string, d: Dict)
    requires WellFormed(d) && Storable(d)
    requires NoNewline(algorithm) && NoNewline(timestamp)
    requires !Marker(ShasumHeaderLine(algorithm, timestamp))
    ensures IsMonolithicText(ShasumText(algorithm, timestamp, d))
        <==> Sort(d.keys) != [] && HasSeparator(Sort(d.keys)[0])
  {
    var ls := ShasumLines(algorithm, timestamp, d);
    ShasumLinesRead(algorithm, timestamp, d);
    SkipHeader(algorithm, timestamp, d);
    if Sort(d.keys) != [] {
      FirstEntryDecides(algorithm, timestamp, d);
    } else {
      FooterOnly(algorithm, timestamp, d);
    }
  }

  /** The header line is a comment without a marker, so the scan moves past it. */
  lemma SkipHeader(algorithm: string, timestamp: string, d: Dict)
    requires WellFormed(d)
    requires !Marker(ShasumHeaderLine(algorithm, timestamp))
    ensures var ls := ShasumLines(algorithm, timestamp, d);
      ScanHead(ls, 0) == ScanHead(ls[1..], 1)
  {
    var ls := ShasumLines(algorithm, timestamp, d);
    var header := ShasumHeaderLine(algorithm, timestamp);
    StripKeepsFirst(header);
    assert ls[0] == header;
  }

  /** The first entry line is a data line; its name decides. */
  lemma FirstEntryDecides(algorithm: string, timestamp: string, d: Dict)
    requires WellFormed(d) && Storable(d) && Sort(d.keys) != []
    ensures var ls := ShasumLines(algorithm, timestamp, d);
      ScanHead(ls[1..], 1) == HasSeparator(Sort(d.keys)[0])
  {
    var ls := ShasumLines(algorithm, timestamp, d);
    var n := Sort(d.keys)[0];
    assert n in Sort(d.keys);
    var h := d.values[n];
    assert ls[1..][0] == EntryLine(h, n);
    DataLineDecides(ls[1..], 1, h, n);
  }

  /** A scan that meets a `hash  name` line within the first eleven lines decides by that name. */
  lemma DataLineDecides(rest: seq<string>, i: nat, h: string, n: string)
    requires rest != [] && rest[0] == EntryLine(h, n) && i <= 10
    requires StorableHash(h) && StorableName(n)
    ensures ScanHead(rest, i) == HasSeparator(n)
  {
    var line := EntryLine(h, n);
    assert line[0] == h[0];
    assert line[|line| - 1] == n[|n| - 1];
    StripUnchanged(line);
    HexPlain(h);
    SplitFirstOfPair(h, n);
  }

  /** With no entries only the end marker follows, and it carries no marker. */
  lemma FooterOnly(algorithm: string, timestamp: string, d: Dict)
    requires WellFormed(d) && Sort(d.keys) == []
    ensures var ls := ShasumLines(algorithm, timestamp, d);
      !ScanHead(ls[1..], 1)
  {
    var ls := ShasumLines(algorithm, timestamp, d);
    var rest := ls[1..];
    assert rest == [FooterLine];
    FooterUnmarked(rest[0]);
    StripKeepsFirst(rest[0]);
    assert rest[1..] == [];
  }
}
