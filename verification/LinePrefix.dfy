/** The writer that sorts the lines of the message bus proxy (internal/system/dbus.go). */
module LinePrefix {
  import opened Wrappers
  import opened Text

  /** From this many retained bytes on, all further writes are refused. */
  const THRESHOLD := 0x100_0000

  const INIT := "init: "

  /** The lines held back until Dump. */
  function Retained(lines: seq<string>): seq<string> {
    if lines == [] then []
    else
      var last := lines[|lines| - 1];
      Retained(lines[..|lines| - 1]) + if INIT <= last then [] else [last]
  }

  /** The container init messages, passed through with the prefix as they are completed. */
  function Passed(lines: seq<string>, prefix: string): seq<string> {
    if lines == [] then []
    else
      var last := lines[|lines| - 1];
      Passed(lines[..|lines| - 1], prefix) + if INIT <= last then [prefix + last] else []
  }

  /** The bytes of the lines, counting their newlines. */
  function Weight(lines: seq<string>): nat {
    if lines == [] then 0
    else Weight(lines[..|lines| - 1]) + |lines[|lines| - 1]| + 1
  }

  function Completed(stream: string): seq<string> {
    var parts := Split(stream, '\n');
    parts[..|parts| - 1]
  }

  function Trailing(stream: string): string {
    var parts := Split(stream, '\n');
    parts[|parts| - 1]
  }

  /** The value of the field n once the stream has been consumed. */
  function Size(stream: string): nat {
    Weight(Retained(Completed(stream))) + |Trailing(stream)|
  }

  lemma Extend(stream: string, q: string)
    requires '\n' !in q
    ensures Completed(stream + q) == Completed(stream) && Trailing(stream + q) == Trailing(stream) + q
    ensures Completed(stream + q + "\n") == Completed(stream) + [Trailing(stream) + q]
    ensures Trailing(stream + q + "\n") == []
  {
    SplitOne(q, '\n');
    SplitConcat(stream, q, '\n');
    SplitConcat(stream + q, "\n", '\n');
    assert Split("\n", '\n') == [[], []];
    assert Trailing(stream) + q + [] == Trailing(stream) + q;
  }

  class LinePrefixWriter {
    const prefix: string
    var n: nat
    var msg: seq<string>
    var buf: string
    /** What println was called with. */
    var printed: seq<string>
    /** All bytes consumed so far. */
    ghost var stream: string

    /** The fields are a function of the consumed bytes, however they were cut into writes. */
    ghost predicate Valid()
      reads this
    {
      && msg == Retained(Completed(stream))
      && printed == Passed(Completed(stream), prefix)
      && buf == Trailing(stream)
      && n == Size(stream)
    }

    constructor (prefix: string)
      ensures Valid() && stream == [] && this.prefix == prefix
    {
      this.prefix, n, msg, buf, printed, stream := prefix, 0, [], [], [], [];
    }

    /** One completed line: sorted by its start. */
    method Complete(q: string)
      requires Valid() && '\n' !in q
      modifies this
      ensures Valid() && stream == old(stream) + q + "\n"
    {
      Extend(stream, q);
      var v := buf + q;
      n := n + |q| + 1;
      if INIT <= v {
        n := n - (|v| + 1);
        printed := printed + [prefix + v];
      } else {
        msg := msg + [v];
      }
      buf, stream := [], stream + q + "\n";
      ghost var lines := Completed(stream);
      assert lines[..|lines| - 1] == Completed(old(stream));
    }

    /** Consumes p up to the first start of a line where the threshold has been reached. */
    method Write(p: string, a: nat) returns (r: nat, refused: bool)
      requires Valid()
      modifies this
      ensures Valid()
      ensures a <= r <= a + |p| && stream == old(stream) + p[..r - a]
      ensures refused <==> r < a + |p|
      ensures refused ==> n >= THRESHOLD && (r == a || p[r - a - 1] == '\n')
      ensures forall k :: 0 <= k < r - a && (k == 0 || p[k - 1] == '\n') ==> Size(old(stream) + p[..k]) < THRESHOLD
      decreases |p|
    {
      hide Completed, Trailing, Retained, Passed, Weight, Split;
      assert old(stream) + p[..0] == stream;
      if n >= THRESHOLD {
        return a, |p| != 0;
      }
      match Cut(p, '\n')
      case None =>
        NoCut(p, '\n');
        Extend(stream, p);
        buf, n, stream := buf + p, n + |p|, stream + p;
        assert p[..|p|] == p;
        return a + |p|, false;
      case Some((q, rest)) =>
        CutParts(p, '\n');
        Complete(q);
        r, refused := Write(rest, a + |q| + 1);
        LineStarts(old(stream), p, q, rest, r - a);
    }
  }

  /** Starts of lines in the rest of a text are starts of lines in the whole of it. */
  lemma LineStarts(stream: string, p: string, q: string, rest: string, m: nat)
    requires p == q + "\n" + rest && '\n' !in q && |q| < m <= |p|
    requires Size(stream) < THRESHOLD
    requires forall k :: 0 <= k < m - |q| - 1 && (k == 0 || rest[k - 1] == '\n') ==>
      Size(stream + q + "\n" + rest[..k]) < THRESHOLD
    ensures stream + q + "\n" + rest[..m - |q| - 1] == stream + p[..m]
    ensures forall k :: 0 <= k < m && (k == 0 || p[k - 1] == '\n') ==> Size(stream + p[..k]) < THRESHOLD
  {
    hide Size;
    var d := |q| + 1;
    assert p[..m] == q + "\n" + rest[..m - d];
    forall k | 0 <= k < m && (k == 0 || p[k - 1] == '\n') ensures Size(stream + p[..k]) < THRESHOLD {
      if k == 0 {
        assert stream + p[..k] == stream;
      } else {
        assert k >= d;
        assert stream + p[..k] == stream + q + "\n" + rest[..k - d];
        assert k > d ==> rest[k - d - 1] == '\n';
      }
    }
  }
}
