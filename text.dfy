/**
 * Character-level helpers with the semantics of the Python string operations
 * that dazzlesum's digest-file readers and writers use: strip(), lower(),
 * split('  ', 1), replace(), startswith()/endswith()/`in`, and iterating over
 * a text file opened with universal newlines.
 */
module Text {
  import opened Wrappers

  /** str.isspace() on one character: the characters strip() removes. */
  predicate IsSpace(c: char)
  {
    || c == ' ' || c == '\t' || c == '\n' || c == '\r'
    || c == '\U{0B}' || c == '\U{0C}'
    || ('\U{1C}' <= c <= '\U{1F}')
    || c == '\U{85}' || c == '\U{A0}' || c == '\U{1680}'
    || ('\U{2000}' <= c <= '\U{200A}')
    || c == '\U{2028}' || c == '\U{2029}' || c == '\U{202F}' || c == '\U{205F}' || c == '\U{3000}'
  }

  function TrimLeft(s: string): (r: string)
    ensures |r| <= |s| && r == s[|s| - |r|..]
    ensures r == [] || !IsSpace(r[0])
    ensures forall i :: 0 <= i < |s| - |r| ==> IsSpace(s[i])
  {
    if s != [] && IsSpace(s[0]) then TrimLeft(s[1..]) else s
  }

  function TrimRight(s: string): (r: string)
    ensures |r| <= |s| && r == s[..|r|]
    ensures r == [] || !IsSpace(r[|r| - 1])
    ensures forall i :: |r| <= i < |s| ==> IsSpace(s[i])
  {
    if s != [] && IsSpace(s[|s| - 1]) then TrimRight(s[..|s| - 1]) else s
  }

  /** str.strip(): drops the whitespace at both ends and nothing else. */
  function Strip(s: string): (r: string)
    ensures r == [] || (!IsSpace(r[0]) && !IsSpace(r[|r| - 1]))
  {
    TrimRight(TrimLeft(s))
  }

  /** A line that starts with a visible character keeps it in first place when stripped. */
  lemma StripKeepsFirst(s: string)
    requires s != [] && !IsSpace(s[0])
    ensures Strip(s) != [] && Strip(s)[0] == s[0]
  {
    assert TrimLeft(s) == s;
  }

  /** A line with visible characters at both ends is unchanged by strip(). */
  lemma StripUnchanged(s: string)
    requires s != [] && !IsSpace(s[0]) && !IsSpace(s[|s| - 1])
    ensures Strip(s) == s
  {
    assert TrimLeft(s) == s;
    assert TrimRight(s) == s;
  }

  /** str.lower() on the ASCII letters. */
  function LowerChar(c: char): char
  {
    if 'A' <= c <= 'Z' then (c as int + 32) as char else c
  }

  function Lower(s: string): (r: string)
    ensures |r| == |s|
  {
    seq(|s|, i requires 0 <= i < |s| => LowerChar(s[i]))
  }

  /** The digest text that hashlib's hexdigest() produces: lower-case hex digits. */
  predicate IsLowerHex(s: string)
  {
    forall i :: 0 <= i < |s| ==> ('0' <= s[i] <= '9' || 'a' <= s[i] <= 'f')
  }

  lemma LowerOfLowerHex(s: string)
    requires IsLowerHex(s)
    ensures Lower(s) == s
  {
  }

  lemma LowerIdempotent(s: string)
    ensures Lower(Lower(s)) == Lower(s)
  {
  }

  predicate StartsWith(s: string, prefix: string)
  {
    |prefix| <= |s| && s[..|prefix|] == prefix
  }

  predicate EndsWith(s: string, suffix: string)
  {
    |suffix| <= |s| && s[|s| - |suffix|..] == suffix
  }

  /** Python's `sub in s`. */
  predicate Contains(s: string, sub: string)
  {
    exists i | 0 <= i <= |s| - |sub| :: OccursAt(s, sub, i)
  }

  predicate OccursAt(s: string, sub: string, i: int)
  {
    0 <= i <= |s| - |sub| && s[i..i + |sub|] == sub
  }

  /** The first index at or after `from` that holds `c`, or |s| when there is none. */
  function NextIndex(s: string, c: char, from: nat): (r: nat)
    requires from <= |s|
    ensures from <= r <= |s|
    ensures r < |s| ==> s[r] == c
    ensures forall j :: from <= j < r ==> s[j] != c
    decreases |s| - from
  {
    if from == |s| || s[from] == c then from else NextIndex(s, c, from + 1)
  }

  /** s.split(c) for a one-character separator. */
  function SplitOn(s: string, c: char): (r: seq<string>)
    ensures |r| >= 1
    ensures forall i :: 0 <= i < |r| ==> c !in r[i]
    decreases |s|
  {
    var k := NextIndex(s, c, 0);
    if k == |s| then [s] else [s[..k]] + SplitOn(s[k + 1..], c)
  }

  lemma {:induction false} SplitOnAfterPiece(a: string, b: string, c: char)
    requires c !in a
    ensures SplitOn(a + [c] + b, c) == [a] + SplitOn(b, c)
  {
    var s := a + [c] + b;
    assert s[|a|] == c;
    assert forall j :: 0 <= j < |a| ==> s[j] == a[j];
    assert NextIndex(s, c, 0) == |a|;
    assert s[..|a|] == a;
    assert s[|a| + 1..] == b;
  }

  lemma {:induction false} SplitOnWithout(s: string, c: char)
    requires c !in s
    ensures SplitOn(s, c) == [s]
  {
    assert NextIndex(s, c, 0) == |s|;
  }

  /** "sep".join(parts) for a one-character separator. */
  function Join(parts: seq<string>, sep: char): string
  {
    if parts == [] then [] else if |parts| == 1 then parts[0] else parts[0] + [sep] + Join(parts[1..], sep)
  }

  lemma {:induction false} SplitOnJoin(parts: seq<string>, sep: char)
    requires parts != []
    requires forall i :: 0 <= i < |parts| ==> sep !in parts[i]
    ensures SplitOn(Join(parts, sep), sep) == parts
    decreases |parts|
  {
    if |parts| == 1 {
      SplitOnWithout(parts[0], sep);
    } else {
      SplitOnJoin(parts[1..], sep);
      SplitOnAfterPiece(parts[0], Join(parts[1..], sep), sep);
    }
  }

  /** Replaces every occurrence of one character by another (str.replace on single characters). */
  function ReplaceChar(s: string, from: char, to: char): (r: string)
    ensures |r| == |s|
  {
    seq(|s|, i requires 0 <= i < |s| => if s[i] == from then to else s[i])
  }

  lemma ReplaceCharAbsent(s: string, from: char, to: char)
    requires from !in s
    ensures ReplaceChar(s, from, to) == s
  {
  }

  /** str.replace(pat, rep): left to right, non-overlapping. */
  function Replace(s: string, pat: string, rep: string): string
    requires pat != []
    decreases |s|
  {
    if |s| < |pat| then s
    else if s[..|pat|] == pat then rep + Replace(s[|pat|..], pat, rep)
    else [s[0]] + Replace(s[1..], pat, rep)
  }

  lemma {:induction false} ReplaceAbsent(s: string, pat: string, rep: string)
    requires pat != [] && pat[0] !in s
    ensures Replace(s, pat, rep) == s
    decreases |s|
  {
    if |s| >= |pat| {
      assert s[..|pat|][0] == s[0];
      ReplaceAbsent(s[1..], pat, rep);
    }
  }

  lemma {:induction false} ReplaceRemoves(s: string, pat: char, rep: string)
    requires pat !in rep
    ensures pat !in Replace(s, [pat], rep)
    decreases |s|
  {
    if |s| >= 1 {
      ReplaceRemoves(s[1..], pat, rep);
      if s[..1] != [pat] {
        assert s[0] != pat;
      }
    }
  }

  lemma {:induction false} ReplacePrefix(p: string, s: string, pat: string, rep: string)
    requires pat != [] && pat[0] !in p
    ensures Replace(p + s, pat, rep) == p + Replace(s, pat, rep)
    decreases |p|
  {
    if p != [] {
      var t := p + s;
      assert t[0] == p[0];
      if |t| >= |pat| {
        assert t[..|pat|] != pat by {
          assert t[..|pat|][0] == p[0];
        }
        assert t[1..] == p[1..] + s;
        ReplacePrefix(p[1..], s, pat, rep);
        assert p == [p[0]] + p[1..];
      } else {
        ReplaceShort(s, pat, rep);
      }
    } else {
      assert p + s == s;
    }
  }

  lemma ReplaceShort(s: string, pat: string, rep: string)
    requires pat != [] && |s| < |pat|
    ensures Replace(s, pat, rep) == s
  {
  }

  /**
   * What a file opened in text mode with newline=None reads: every "\r\n" and
   * every lone "\r" becomes "\n".
   */
  function UniversalNewlines(s: string): (r: string)
    ensures '\r' !in r
  {
    var once := Replace(s, "\r\n", "\n");
    ReplaceRemoves(once, '\r', "\n");
    Replace(once, "\r", "\n")
  }

  lemma UniversalNewlinesWithoutCr(s: string)
    requires '\r' !in s
    ensures UniversalNewlines(s) == s
  {
    ReplaceAbsent(s, "\r\n", "\n");
    ReplaceAbsent(s, "\r", "\n");
  }

  lemma UniversalNewlinesPrefix(p: string, s: string)
    requires '\r' !in p
    ensures UniversalNewlines(p + s) == p + UniversalNewlines(s)
  {
    ReplacePrefix(p, s, "\r\n", "\n");
    ReplacePrefix(p, Replace(s, "\r\n", "\n"), "\r", "\n");
  }

  /**
   * The lines `for line in f` yields, without their "\n": the pieces between
   * newlines, dropping the empty piece after a final newline.
   */
  function Lines(s: string): (r: seq<string>)
    ensures forall i :: 0 <= i < |r| ==> '\n' !in r[i]
  {
    DropEmptyTail(SplitOn(s, '\n'))
  }

  function DropEmptyTail(pieces: seq<string>): (r: seq<string>)
    requires pieces != []
    ensures r == pieces || (pieces[|pieces| - 1] == [] && r == pieces[..|pieces| - 1])
  {
    if pieces[|pieces| - 1] == [] then pieces[..|pieces| - 1] else pieces
  }

  lemma DropEmptyTailAfter(ls: seq<string>, p: seq<string>)
    requires p != []
    ensures DropEmptyTail(ls + p) == ls + DropEmptyTail(p)
  {
    var q := ls + p;
    assert q[|q| - 1] == p[|p| - 1];
    if p[|p| - 1] == [] {
      assert q[..|q| - 1] == ls + p[..|p| - 1];
    }
  }

  /** The text of a file written line by line, each line followed by "\n". */
  function Unlines(ls: seq<string>): string
  {
    if ls == [] then [] else ls[0] + "\n" + Unlines(ls[1..])
  }

  predicate NoNewline(s: string)
  {
    '\n' !in s && '\r' !in s
  }

  lemma NoNewlineConcat(a: string, b: string)
    requires NoNewline(a) && NoNewline(b)
    ensures NoNewline(a + b)
  {
  }

  lemma {:induction false} UnlinesAppend(a: seq<string>, b: seq<string>)
    ensures Unlines(a + b) == Unlines(a) + Unlines(b)
    decreases |a|
  {
    if a != [] {
      assert (a + b)[1..] == a[1..] + b;
      UnlinesAppend(a[1..], b);
    } else {
      assert a + b == b;
    }
  }

  /** One line written, then the rest of the text. */
  lemma UnlinesCons(ls: seq<string>, t: string)
    requires ls != []
    ensures Unlines(ls) + t == ls[0] + ['\n'] + (Unlines(ls[1..]) + t)
  {
  }

  /** The inductive step of SplitOnUnlines: one more line in front. */
  lemma SplitOnUnlinesStep(ls: seq<string>, t: string)
    requires ls != [] && '\n' !in ls[0]
    requires SplitOn(Unlines(ls[1..]) + t, '\n') == ls[1..] + SplitOn(t, '\n')
    ensures SplitOn(Unlines(ls) + t, '\n') == ls + SplitOn(t, '\n')
  {
    UnlinesCons(ls, t);
    SplitOnAfterPiece(ls[0], Unlines(ls[1..]) + t, '\n');
    ConsAppend(ls, SplitOn(t, '\n'));
  }

  lemma ConsAppend<T>(x: seq<T>, s: seq<T>)
    requires x != []
    ensures [x[0]] + (x[1..] + s) == x + s
  {
    assert x == [x[0]] + x[1..];
  }

  /** A sequence that agrees with b and then holds x is b + [x]. */
  lemma PointwiseSnoc<T>(a: seq<T>, b: seq<T>, x: T)
    requires |a| == |b| + 1 && a[|b|] == x
    requires forall k :: 0 <= k < |b| ==> a[k] == b[k]
    ensures a == b + [x]
  {
  }

  /** Two lines written one after the other. */
  lemma UnlinesPair(a: string, b: string)
    ensures Unlines([a, b]) == a + "\n" + b + "\n"
  {
    assert [a, b][1..] == [b];
    assert [b][1..] == [];
    assert Unlines([b]) == b + "\n";
    assert Unlines([a, b]) == a + "\n" + (b + "\n");
  }

  lemma {:induction false} SplitOnUnlines(ls: seq<string>, t: string)
    requires forall i :: 0 <= i < |ls| ==> '\n' !in ls[i]
    ensures SplitOn(Unlines(ls) + t, '\n') == ls + SplitOn(t, '\n')
    decreases |ls|
  {
    if ls != [] {
      SplitOnUnlines(ls[1..], t);
      SplitOnUnlinesStep(ls, t);
    } else {
      assert Unlines(ls) + t == t;
    }
  }

  /** Reading back a text written line by line gives the lines that were written, then the rest. */
  lemma LinesAfterUnlines(ls: seq<string>, t: string)
    requires forall i :: 0 <= i < |ls| ==> '\n' !in ls[i]
    ensures Lines(Unlines(ls) + t) == ls + Lines(t)
  {
    SplitOnUnlines(ls, t);
    DropEmptyTailAfter(ls, SplitOn(t, '\n'));
  }

  lemma LinesOfUnlines(ls: seq<string>)
    requires forall i :: 0 <= i < |ls| ==> '\n' !in ls[i]
    ensures Lines(Unlines(ls)) == ls
  {
    LinesAfterUnlines(ls, []);
    assert Unlines(ls) + [] == Unlines(ls);
    assert SplitOn([], '\n') == [[]];
  }

  /** A text that starts with a piece free of newlines has a first line, and it starts with that piece. */
  lemma FirstLineStartsWith(p: string, s: string)
    requires p != [] && '\n' !in p
    ensures Lines(p + s) != [] && StartsWith(Lines(p + s)[0], p)
  {
    var t := p + s;
    var k := NextIndex(t, '\n', 0);
    assert forall j :: 0 <= j < |p| ==> t[j] == p[j];
    var pieces := SplitOn(t, '\n');
    assert pieces[0] == t[..k];
    assert t[..k][..|p|] == p;
  }

  /** Stripping keeps a leading piece whose two ends are not whitespace. */
  lemma StripKeepsPrefix(p: string, s: string)
    requires p != [] && !IsSpace(p[0]) && !IsSpace(p[|p| - 1])
    ensures StartsWith(Strip(p + s), p)
  {
    var t := p + s;
    assert t[0] == p[0];
    assert TrimLeft(t) == t;
    var r := TrimRight(t);
    assert t[|p| - 1] == p[|p| - 1];
    assert r[..|p|] == t[..|p|] == p;
  }

  /** Position of the first two-space separator at or after `from`, as str.split('  ', 1) finds it. */
  predicate SeparatorAt(s: string, i: int)
  {
    0 <= i && i + 1 < |s| && s[i] == ' ' && s[i + 1] == ' '
  }

  function FindSeparator(s: string, from: nat): (r: Option<nat>)
    requires from <= |s|
    ensures r.Some? ==> from <= r.value && SeparatorAt(s, r.value)
    ensures r.Some? ==> forall j :: from <= j < r.value ==> !SeparatorAt(s, j)
    ensures r.None? ==> forall j :: from <= j < |s| ==> !SeparatorAt(s, j)
    decreases |s| - from
  {
    if from + 1 >= |s| then None
    else if s[from] == ' ' && s[from + 1] == ' ' then Some(from)
    else FindSeparator(s, from + 1)
  }

  /** line.split('  ', 1) when it yields two parts. */
  function SplitFirst(s: string): (r: Option<(string, string)>)
  {
    match FindSeparator(s, 0)
    case None => None
    case Some(i) => Some((s[..i], s[i + 2..]))
  }

  lemma SplitFirstOfPair(h: string, n: string)
    requires ' ' !in h && h != []
    ensures SplitFirst(h + "  " + n) == Some((h, n))
  {
    var s := h + "  " + n;
    assert SeparatorAt(s, |h|);
    forall j | 0 <= j < |h| ensures !SeparatorAt(s, j) {
      assert s[j] == h[j];
    }
    var f := FindSeparator(s, 0);
    assert f == Some(|h|);
    assert s[..|h|] == h;
    assert s[|h| + 2..] == n;
  }
}
