/** Splitting and joining of text at a separator. */
module Text {
  import opened Wrappers

  /** The pieces of s between occurrences of sep; there is always at least one. */
  function Split(s: string, sep: char): (r: seq<string>)
    ensures |r| > 0
    ensures forall k :: 0 <= k < |r| ==> sep !in r[k]
  {
    if s == [] then [[]]
    else
      var r := Split(s[1..], sep);
      if s[0] == sep then [[]] + r else [[s[0]] + r[0]] + r[1..]
  }

  function Join(parts: seq<string>, sep: char): string
    requires parts != []
  {
    if |parts| == 1 then parts[0] else parts[0] + [sep] + Join(parts[1..], sep)
  }

  lemma {:induction false} SplitOne(s: string, sep: char)
    requires sep !in s
    ensures Split(s, sep) == [s]
  {
    if s != [] {
      SplitOne(s[1..], sep);
      assert [s[0]] + s[1..] == s;
    }
  }

  /** A first piece without the separator is split off whole. */
  lemma {:induction false} SplitFirst(a: string, rest: string, sep: char)
    requires sep !in a
    ensures Split(a + [sep] + rest, sep) == [a] + Split(rest, sep)
  {
    var s := a + [sep] + rest;
    if a == [] {
      assert s[1..] == rest;
    } else {
      SplitFirst(a[1..], rest, sep);
      assert [a[0]] + a[1..] == a;
      assert s[1..] == a[1..] + [sep] + rest;
    }
  }

  /** Splitting undoes joining when no part holds the separator. */
  lemma {:induction false} SplitJoin(parts: seq<string>, sep: char)
    requires parts != [] && forall k :: 0 <= k < |parts| ==> sep !in parts[k]
    ensures Split(Join(parts, sep), sep) == parts
  {
    if |parts| == 1 {
      SplitOne(parts[0], sep);
    } else {
      SplitJoin(parts[1..], sep);
      SplitFirst(parts[0], Join(parts[1..], sep), sep);
    }
  }

  /** Two lists of pieces, the last of the first run into the first of the second. */
  function Merge(a: seq<string>, b: seq<string>): (r: seq<string>)
    requires a != [] && b != []
    ensures r != []
  {
    a[..|a| - 1] + [a[|a| - 1] + b[0]] + b[1..]
  }

  lemma MergePiece(r: seq<string>, b: seq<string>)
    requires r != [] && b != []
    ensures Merge([[]] + r, b) == [[]] + Merge(r, b)
  {
    var a: seq<string> := [[]] + r;
    assert a[..|a| - 1] == [[]] + r[..|r| - 1];
  }

  lemma MergeChar(c: char, r: seq<string>, b: seq<string>)
    requires r != [] && b != []
    ensures var m := Merge(r, b); Merge([[c] + r[0]] + r[1..], b) == [[c] + m[0]] + m[1..]
  {
    var a := [[c] + r[0]] + r[1..];
    if |r| == 1 {
      assert a == [[c] + r[0]];
      assert [c] + r[0] + b[0] == [c] + (r[0] + b[0]);
    } else {
      assert a[..|a| - 1] == [[c] + r[0]] + r[1..|r| - 1];
    }
  }

  /** Splitting a concatenation runs the last piece of one part into the first of the other. */
  lemma {:induction false} SplitConcat(s: string, t: string, sep: char)
    ensures Split(s + t, sep) == Merge(Split(s, sep), Split(t, sep))
  {
    if s == [] {
      assert s + t == t;
      assert [] + Split(t, sep)[0] == Split(t, sep)[0];
    } else {
      hide Merge;
      var r := Split(s[1..], sep);
      SplitConcat(s[1..], t, sep);
      assert (s + t)[1..] == s[1..] + t;
      if s[0] == sep {
        MergePiece(r, Split(t, sep));
      } else {
        MergeChar(s[0], r, Split(t, sep));
      }
    }
  }

  /** A separator between two texts ends the pieces of the first. */
  lemma SplitAt(a: string, b: string, sep: char)
    ensures Split(a + [sep] + b, sep) == Split(a, sep) + Split(b, sep)
  {
    assert ([sep] + b)[1..] == b;
    assert Split([sep] + b, sep) == [[]] + Split(b, sep);
    hide Split;
    SplitConcat(a, [sep] + b, sep);
    assert a + ([sep] + b) == a + [sep] + b;
    var p := Split(a, sep);
    assert p[|p| - 1] + [] == p[|p| - 1];
  }

  /** Joining undoes splitting. */
  lemma {:induction false} JoinSplit(s: string, sep: char)
    ensures Join(Split(s, sep), sep) == s
  {
    if s != [] {
      JoinSplit(s[1..], sep);
      var r := Split(s[1..], sep);
      if s[0] == sep {
        assert ([[]] + r)[1..] == r;
      } else {
        var t := [[s[0]] + r[0]] + r[1..];
        assert t[1..] == r[1..];
      }
    }
  }

  /** The text before and after the first sep, or None without one. */
  function Cut(s: string, sep: char): Option<(string, string)> {
    if s == [] then None
    else if s[0] == sep then Some(([], s[1..]))
    else
      match Cut(s[1..], sep)
      case None => None
      case Some((a, b)) => Some(([s[0]] + a, b))
  }

  lemma {:induction false} CutFirst(a: string, rest: string, sep: char)
    requires sep !in a
    ensures Cut(a + [sep] + rest, sep) == Some((a, rest))
  {
    var s := a + [sep] + rest;
    if a == [] {
      assert s[1..] == rest;
    } else {
      CutFirst(a[1..], rest, sep);
      assert [a[0]] + a[1..] == a;
      assert s[1..] == a[1..] + [sep] + rest;
    }
  }

  lemma {:induction false} NoCut(s: string, sep: char)
    requires Cut(s, sep).None?
    ensures sep !in s
  {
    if s != [] {
      NoCut(s[1..], sep);
      assert s == [s[0]] + s[1..];
    }
  }

  /** Cut takes the text apart at its first sep. */
  lemma {:induction false} CutParts(s: string, sep: char)
    requires Cut(s, sep).Some?
    ensures var (a, b) := Cut(s, sep).value; sep !in a && s == a + [sep] + b
  {
    if s[0] != sep {
      CutParts(s[1..], sep);
      assert s == [s[0]] + s[1..];
    }
  }
}
