/**
 * Python's ordering of strings (code point by code point, a proper prefix
 * first) and `sorted()` on the distinct keys of a dict.
 */
module Ordering {

  /** a < b between Python strings. */
  predicate Below(a: string, b: string)
    decreases |a|
  {
    if a == [] then b != []
    else if b == [] then false
    else if a[0] != b[0] then a[0] < b[0]
    else Below(a[1..], b[1..])
  }

  lemma {:induction false} BelowIrreflexive(a: string)
    ensures !Below(a, a)
    decreases |a|
  {
    if a != [] {
      BelowIrreflexive(a[1..]);
    }
  }

  lemma {:induction false} BelowTransitive(a: string, b: string, c: string)
    requires Below(a, b) && Below(b, c)
    ensures Below(a, c)
    decreases |a|
  {
    if a != [] && b != [] && c != [] && a[0] == b[0] && b[0] == c[0] {
      BelowTransitive(a[1..], b[1..], c[1..]);
    }
  }

  lemma {:induction false} BelowTotal(a: string, b: string)
    requires a != b
    ensures Below(a, b) || Below(b, a)
    decreases |a|
  {
    if a != [] && b != [] && a[0] == b[0] {
      assert a == [a[0]] + a[1..] && b == [b[0]] + b[1..];
      BelowTotal(a[1..], b[1..]);
    }
  }

  lemma BelowAsymmetric(a: string, b: string)
    requires Below(a, b)
    ensures !Below(b, a)
  {
    if Below(b, a) {
      BelowTransitive(a, b, a);
      BelowIrreflexive(a);
    }
  }

  /** Strictly increasing, hence without repetitions. */
  predicate Sorted(s: seq<string>)
  {
    forall i, j :: 0 <= i < j < |s| ==> Below(s[i], s[j])
  }

  predicate Distinct(s: seq<string>)
  {
    forall i, j :: 0 <= i < j < |s| ==> s[i] != s[j]
  }

  lemma SortedDistinct(s: seq<string>)
    requires Sorted(s)
    ensures Distinct(s)
  {
    forall i, j | 0 <= i < j < |s| ensures s[i] != s[j] {
      if s[i] == s[j] {
        BelowIrreflexive(s[i]);
      }
    }
  }

  /** Puts x at its place in a sorted sequence that lacks it. */
  function Insert(x: string, s: seq<string>): (r: seq<string>)
    requires Sorted(s) && x !in s
    ensures Sorted(r) && |r| == |s| + 1
    ensures forall y :: y in r <==> y in s || y == x
    decreases |s|
  {
    if s == [] then [x]
    else if Below(x, s[0]) then
      assert forall j :: 0 < j < |s| ==> Below(x, s[j]) by {
        forall j | 0 < j < |s| ensures Below(x, s[j]) {
          BelowTransitive(x, s[0], s[j]);
        }
      }
      [x] + s
    else
      BelowTotal(x, s[0]);
      var r := [s[0]] + Insert(x, s[1..]);
      assert forall y :: y in s[1..] ==> Below(s[0], y);
      r
  }

  /** sorted() of distinct strings, as an insertion sort. */
  function Sort(s: seq<string>): (r: seq<string>)
    requires Distinct(s)
    ensures Sorted(r) && |r| == |s|
    ensures forall y :: y in r <==> y in s
  {
    if s == [] then []
    else
      var init := s[..|s| - 1];
      assert s == init + [s[|s| - 1]];
      Insert(s[|s| - 1], Sort(init))
  }

  /** Two sorted sequences with the same elements are equal: the sorted order of a set is unique. */
  lemma {:induction false} SortedUnique(a: seq<string>, b: seq<string>)
    requires Sorted(a) && Sorted(b)
    requires forall y :: y in a <==> y in b
    ensures a == b
    decreases |a|
  {
    if a != [] && b != [] {
      if a[0] != b[0] {
        assert a[0] in b && b[0] in a;
        assert Below(b[0], a[0]) by {
          var i :| 0 <= i < |b| && b[i] == a[0];
          assert i != 0;
        }
        assert Below(a[0], b[0]) by {
          var j :| 0 <= j < |a| && a[j] == b[0];
          assert j != 0;
        }
        BelowAsymmetric(a[0], b[0]);
      }
      assert a[0] == b[0];
      SortedDistinct(a);
      SortedDistinct(b);
      assert a == [a[0]] + a[1..] && b == [b[0]] + b[1..];
      forall y ensures y in a[1..] <==> y in b[1..] {
        if y in a[1..] {
          assert y != a[0] by {
            var i :| 0 <= i < |a[1..]| && a[1..][i] == y;
            assert a[i + 1] == y;
          }
          assert y in b;
        }
        if y in b[1..] {
          assert y != b[0] by {
            var i :| 0 <= i < |b[1..]| && b[1..][i] == y;
            assert b[i + 1] == y;
          }
          assert y in a;
        }
      }
      SortedUnique(a[1..], b[1..]);
      assert a == [a[0]] + a[1..] && b == [b[0]] + b[1..];
    } else if a != [] {
      FirstIsElement(a);
      assert false;
    } else if b != [] {
      FirstIsElement(b);
      assert false;
    }
  }

  lemma FirstIsElement(s: seq<string>)
    requires s != []
    ensures s[0] in s
  {
  }
}
