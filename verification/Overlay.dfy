/** The data argument of an overlay mount (container/initoverlay.go, container/check/overlay.go). */
module Overlay {
  import opened Wrappers
  import opened Text

  const NUL := 0 as char

  /** What a mount call sees of a string: its characters up to the first NUL. */
  function UpToNul(s: string): string {
    if s == [] || s[0] == NUL then [] else [s[0]] + UpToNul(s[1..])
  }

  predicate Special(c: char) {
    c == '\\' || c == ',' || c == ':'
  }

  function Escaped(s: string): string {
    if s == [] then []
    else (if Special(s[0]) then ['\\', s[0]] else [s[0]]) + Escaped(s[1..])
  }

  function EscapeOverlayDataSegment(s: string): string {
    if s == "" then "" else Escaped(UpToNul(s))
  }

  /** Removing escapes: a backslash stands for the character after it. */
  function Unescaped(s: string): string {
    if s == [] then []
    else if s[0] == '\\' && |s| > 1 then [s[1]] + Unescaped(s[2..])
    else [s[0]] + Unescaped(s[1..])
  }

  /** The pieces between unescaped occurrences of sep, their escapes left in place. */
  function Fields(s: string, sep: char): (r: seq<string>)
    ensures r != []
  {
    if s == [] then [[]]
    else if s[0] == '\\' && |s| > 1 then
      var r := Fields(s[2..], sep);
      [s[..2] + r[0]] + r[1..]
    else
      var r := Fields(s[1..], sep);
      if s[0] == sep then [[]] + r else [[s[0]] + r[0]] + r[1..]
  }

  /** A run of escape pairs and of characters other than sep and the backslash. */
  predicate Closed(s: string, sep: char) {
    || s == []
    || (s[0] == '\\' && |s| > 1 && Closed(s[2..], sep))
    || (s[0] != '\\' && s[0] != sep && Closed(s[1..], sep))
  }

  lemma {:induction false} ClosedConcat(a: string, b: string, sep: char)
    requires Closed(a, sep) && Closed(b, sep)
    ensures Closed(a + b, sep)
    decreases |a|
  {
    if a == [] {
      assert a + b == b;
    } else if a[0] == '\\' {
      ClosedConcat(a[2..], b, sep);
      assert (a + b)[2..] == a[2..] + b;
    } else {
      ClosedConcat(a[1..], b, sep);
      assert (a + b)[1..] == a[1..] + b;
    }
  }

  lemma {:induction false} EscapedIsClosed(s: string, sep: char)
    requires Special(sep)
    ensures Closed(Escaped(s), sep)
  {
    if s != [] {
      EscapedIsClosed(s[1..], sep);
      var e := Escaped(s);
      if Special(s[0]) {
        assert e[2..] == Escaped(s[1..]);
      } else {
        assert e[1..] == Escaped(s[1..]);
      }
    }
  }

  /** Closed text stays in the first field. */
  lemma {:induction false} FieldsFirst(a: string, t: string, sep: char)
    requires Closed(a, sep)
    ensures Fields(a + t, sep) == [a + Fields(t, sep)[0]] + Fields(t, sep)[1..]
    decreases |a|
  {
    var s := a + t;
    var f := Fields(t, sep);
    if a == [] {
      assert s == t && a + f[0] == f[0];
    } else if a[0] == '\\' {
      FieldsFirst(a[2..], t, sep);
      assert s[2..] == a[2..] + t && s[..2] == a[..2];
      assert a[..2] + (a[2..] + f[0]) == a + f[0];
    } else {
      FieldsFirst(a[1..], t, sep);
      assert s[1..] == a[1..] + t;
      assert [a[0]] + (a[1..] + f[0]) == a + f[0];
    }
  }

  /** Fields takes apart what Join put together, when every part is closed. */
  lemma {:induction false} FieldsJoin(parts: seq<string>, sep: char)
    requires parts != [] && sep != '\\' && forall k :: 0 <= k < |parts| ==> Closed(parts[k], sep)
    ensures Fields(Join(parts, sep), sep) == parts
    decreases |parts|
  {
    if |parts| == 1 {
      FieldsFirst(parts[0], [], sep);
      assert parts[0] + [] == parts[0];
    } else {
      FieldsJoin(parts[1..], sep);
      var rest := Join(parts[1..], sep);
      var t := [sep] + rest;
      assert t[1..] == rest;
      assert Fields(t, sep) == [[]] + parts[1..];
      FieldsFirst(parts[0], t, sep);
      assert parts[0] + [sep] + rest == parts[0] + t;
      assert parts[0] + [] == parts[0];
    }
  }

  lemma {:induction false} UnescapeEscaped(s: string)
    ensures Unescaped(Escaped(s)) == s
  {
    if s != [] {
      UnescapeEscaped(s[1..]);
      var e := Escaped(s);
      if Special(s[0]) {
        assert e[2..] == Escaped(s[1..]);
      } else {
        assert e[1..] == Escaped(s[1..]);
      }
      assert [s[0]] + s[1..] == s;
    }
  }

  lemma {:induction false} UpToNulIff(s: string)
    ensures UpToNul(s) <= s
    ensures UpToNul(s) == s <==> NUL !in s
  {
    if s != [] {
      UpToNulIff(s[1..]);
      assert s == [s[0]] + s[1..];
    }
  }

  /** A segment survives escaping exactly when it holds no NUL. */
  lemma SegmentSurvivesIff(s: string)
    ensures Unescaped(EscapeOverlayDataSegment(s)) == s <==> NUL !in s
  {
    UpToNulIff(s);
    UnescapeEscaped(UpToNul(s));
  }

  /** Two paths that differ after a NUL are not told apart. */
  lemma NulMerges(s: string, a: string, b: string)
    requires NUL !in s && s != []
    ensures EscapeOverlayDataSegment(s + [NUL] + a) == EscapeOverlayDataSegment(s + [NUL] + b)
  {
    CutAtNul(s, a);
    CutAtNul(s, b);
  }

  lemma {:induction false} CutAtNul(s: string, a: string)
    requires NUL !in s
    ensures UpToNul(s + [NUL] + a) == s
  {
    if s != [] {
      CutAtNul(s[1..], a);
      assert (s + [NUL] + a)[1..] == s[1..] + [NUL] + a;
      assert s == [s[0]] + s[1..];
    }
  }

  datatype OverlayError =
    | UnexpectedUpper(value: string)
    | ReadonlyLower
    | EmptyLower
    | OpState
    | Host(error: nat)

  /** The options of a mount, before escaping; without upper and work it is readonly. */
  datatype Layers = Layers(upper: Option<string>, work: Option<string>, lower: seq<string>)

  const UPPER := "upperdir="
  const WORK := "workdir="
  const LOWER := "lowerdir="
  const USERXATTR := "userxattr"

  /** A reader of the data argument: unescaped commas end options, unescaped colons end layers. */
  function Read(data: string): Option<Layers> {
    ReadOptions(Fields(data, ','))
  }

  function ReadOptions(options: seq<string>): Option<Layers> {
    if |options| == 4 && UPPER <= options[0] && WORK <= options[1] && LOWER <= options[2]
       && options[3] == USERXATTR then
      Some(Layers(Some(Unescaped(options[0][|UPPER|..])), Some(Unescaped(options[1][|WORK|..])),
                  UnescapedAll(Fields(options[2][|LOWER|..], ':'))))
    else if |options| == 2 && LOWER <= options[0] && options[1] == USERXATTR then
      Some(Layers(None, None, UnescapedAll(Fields(options[0][|LOWER|..], ':'))))
    else None
  }

  function UnescapedAll(parts: seq<string>): (r: seq<string>)
    ensures |r| == |parts|
    ensures forall k :: 0 <= k < |parts| ==> r[k] == Unescaped(parts[k])
  {
    seq(|parts|, k requires 0 <= k < |parts| => Unescaped(parts[k]))
  }

  function EscapedAll(paths: seq<string>): (r: seq<string>)
    ensures |r| == |paths|
    ensures forall k :: 0 <= k < |paths| ==> r[k] == EscapeOverlayDataSegment(paths[k])
  {
    seq(|paths|, k requires 0 <= k < |paths| => EscapeOverlayDataSegment(paths[k]))
  }

  predicate Plain(s: string) {
    forall k :: 0 <= k < |s| ==> !Special(s[k])
  }

  lemma {:induction false} PlainIsClosed(s: string, sep: char)
    requires Plain(s) && Special(sep)
    ensures Closed(s, sep) && Unescaped(s) == s
  {
    if s != [] {
      PlainIsClosed(s[1..], sep);
      assert s == [s[0]] + s[1..];
    }
  }

  /** Texts that hold no bare separator and read back as a path. */
  predicate Spells(text: string, path: string) {
    Closed(text, ',') && Closed(text, ':') && Unescaped(text) == path
  }

  lemma EscapedSpells(path: string)
    requires NUL !in path
    ensures Spells(EscapeOverlayDataSegment(path), path)
  {
    UpToNulIff(path);
    EscapedIsClosed(path, ',');
    EscapedIsClosed(path, ':');
    UnescapeEscaped(path);
  }

  function Options(upper: string, work: string, lower: seq<string>): seq<string>
    requires lower != []
  {
    var rest := [LOWER + Join(lower, ':'), USERXATTR];
    if upper == "" && work == "" then rest else [UPPER + upper, WORK + work] + rest
  }

  function Data(upper: string, work: string, lower: seq<string>): string
    requires lower != []
  {
    Join(Options(upper, work, lower), ',')
  }

  lemma {:induction false} JoinIsClosed(parts: seq<string>)
    requires parts != [] && forall k :: 0 <= k < |parts| ==> Closed(parts[k], ',')
    ensures Closed(Join(parts, ':'), ',')
    decreases |parts|
  {
    if |parts| > 1 {
      JoinIsClosed(parts[1..]);
      var rest := Join(parts[1..], ':');
      assert ([':'] + rest)[1..] == rest;
      ClosedConcat(parts[0], [':'] + rest, ',');
      assert parts[0] + [':'] + rest == parts[0] + ([':'] + rest);
    }
  }

  lemma OptionIsClosed(key: string, text: string)
    requires Plain(key) && Closed(text, ',')
    ensures Closed(key + text, ',')
  {
    PlainIsClosed(key, ',');
    ClosedConcat(key, text, ',');
  }

  lemma OptionKey(key: string, text: string)
    ensures key <= key + text && (key + text)[|key|..] == text
  {
  }

  predicate SpellsAll(texts: seq<string>, paths: seq<string>) {
    |texts| == |paths| && forall k :: 0 <= k < |texts| ==> Spells(texts[k], paths[k])
  }

  lemma KeysAreClosed(text: string)
    requires Closed(text, ',')
    ensures Closed(UPPER + text, ',') && Closed(WORK + text, ',') && Closed(LOWER + text, ',') && Closed(USERXATTR, ',')
  {
    hide Closed;
    OptionIsClosed(UPPER, text);
    OptionIsClosed(WORK, text);
    OptionIsClosed(LOWER, text);
    PlainIsClosed(USERXATTR, ',');
  }

  lemma OptionsAreClosed(upper: string, work: string, lower: seq<string>)
    requires lower != [] && forall k :: 0 <= k < |lower| ==> Closed(lower[k], ',')
    requires Closed(upper, ',') && Closed(work, ',')
    ensures Fields(Data(upper, work, lower), ',') == Options(upper, work, lower)
  {
    hide Closed, Join, Fields;
    JoinIsClosed(lower);
    KeysAreClosed(Join(lower, ':'));
    KeysAreClosed(upper);
    KeysAreClosed(work);
    FieldsJoin(Options(upper, work, lower), ',');
  }

  lemma OptionsRead(upper: string, work: string, lower: seq<string>)
    requires lower != []
    ensures var paths := UnescapedAll(Fields(Join(lower, ':'), ':'));
      ReadOptions(Options(upper, work, lower)) ==
        if upper == "" && work == "" then Some(Layers(None, None, paths))
        else Some(Layers(Some(Unescaped(upper)), Some(Unescaped(work)), paths))
  {
    hide Fields, Unescaped, UnescapedAll, Join;
    OptionKey(UPPER, upper);
    OptionKey(WORK, work);
    OptionKey(LOWER, Join(lower, ':'));
  }

  /** The reader recovers every layer, in order, from texts that spell them. */
  lemma DataRead(upper: string, work: string, lower: seq<string>, paths: seq<string>)
    requires lower != [] && SpellsAll(lower, paths) && Closed(upper, ',') && Closed(work, ',')
    ensures Read(Data(upper, work, lower)) ==
      if upper == "" && work == "" then Some(Layers(None, None, paths))
      else Some(Layers(Some(Unescaped(upper)), Some(Unescaped(work)), paths))
  {
    OptionsAreClosed(upper, work, lower);
    FieldsJoin(lower, ':');
    assert UnescapedAll(lower) == paths;
    hide Fields, Unescaped, UnescapedAll, Join, Closed, Options, ReadOptions, Data;
    OptionsRead(upper, work, lower);
  }

  class MountOverlayOp {
    const Lower: seq<string>
    const Upper: Option<string>
    const Work: Option<string>
    var lower: seq<string>
    var upper: string
    var work: string
    var ephemeral: bool

    constructor (lower: seq<string>, upper: Option<string>, work: Option<string>)
      ensures Lower == lower && Upper == upper && Work == work && !ephemeral && this.upper == "" && this.work == ""
    {
      Lower, Upper, Work := lower, upper, work;
      this.lower, this.upper, this.work, ephemeral := [], "", "", false;
    }

    /** resolve is evalSymlinks followed by toHost. */
    method Early(resolve: string -> Result<string, nat>) returns (err: Option<OverlayError>)
      requires !ephemeral && upper == "" && work == ""
      modifies this
      ensures Work.None? && Upper.Some? && Upper.value != "/" ==> err == Some(UnexpectedUpper(Upper.value))
      ensures Work.Some? && Upper.None? ==> err == Some(OpState)
      ensures err.None? ==>
        && (ephemeral <==> Upper == Some("/") && Work.None?)
        && (Upper.Some? && !ephemeral ==>
              && Work.Some? && resolve(Upper.value).Ok? && resolve(Work.value).Ok?
              && upper == EscapeOverlayDataSegment(resolve(Upper.value).value)
              && work == EscapeOverlayDataSegment(resolve(Work.value).value))
        && (Upper.None? ==> Work.None? && upper == "" && work == "")
        && |lower| == |Lower|
        && forall k :: 0 <= k < |Lower| ==>
             resolve(Lower[k]).Ok? && lower[k] == EscapeOverlayDataSegment(resolve(Lower[k]).value)
    {
      if Work.None? && Upper.Some? {
        if Upper.value == "/" {
          ephemeral := true;
        } else {
          return Some(UnexpectedUpper(Upper.value));
        }
      }
      if !ephemeral {
        if Upper != Work && (Upper.None? || Work.None?) {
          return Some(OpState);
        }
        if Upper.Some? {
          match resolve(Upper.value) {
            case Err(e) => return Some(Host(e));
            case Ok(v) => upper := EscapeOverlayDataSegment(v);
          }
        }
        if Work.Some? {
          match resolve(Work.value) {
            case Err(e) => return Some(Host(e));
            case Ok(v) => work := EscapeOverlayDataSegment(v);
          }
        }
      }
      lower := [];
      for i := 0 to |Lower|
        modifies `lower
        invariant |lower| == i
        invariant forall k :: 0 <= k < i ==>
          resolve(Lower[k]).Ok? && lower[k] == EscapeOverlayDataSegment(resolve(Lower[k]).value)
      {
        match resolve(Lower[i]) {
          case Err(e) => return Some(Host(e));
          case Ok(v) => lower := lower + [EscapeOverlayDataSegment(v)];
        }
      }
      return None;
    }

    /** mkdir is the failure of making the target, if any; temp are the names mkdirTemp makes for an
        ephemeral upper and work directory; mount is the failure of the mount call for its data. data
        is what the mount call was made with, if it was made. */
    method Apply(mkdir: Option<nat>, temp: (Result<string, nat>, Result<string, nat>), mount: string -> Option<nat>)
      returns (data: Option<string>, err: Option<OverlayError>)
      requires |lower| == |Lower|
      modifies `upper, `work
      ensures mkdir.Some? ==> err == Some(Host(mkdir.value)) && data.None?
      ensures data.None? ==> err.Some?
      ensures ephemeral && data.Some? ==> temp.0.Ok? && temp.1.Ok? && upper == temp.0.value && work == temp.1.value
      ensures !ephemeral ==> upper == old(upper) && work == old(work)
      ensures mkdir.None? && (!ephemeral || (temp.0.Ok? && temp.1.Ok?)) ==>
        var readonly := upper == "" && work == "";
        && (err == Some(ReadonlyLower) <==> readonly && |Lower| < 2)
        && (err == Some(EmptyLower) <==> !readonly && |Lower| == 0)
        && (data.Some? <==> if readonly then |Lower| >= 2 else |Lower| > 0)
      ensures data.Some? ==> lower != [] && data.value == Data(upper, work, lower)
      ensures data.Some? ==> err == match mount(data.value) case None => None case Some(e) => Some(Host(e))
    {
      if mkdir.Some? {
        return None, Some(Host(mkdir.value));
      }
      if ephemeral {
        match temp.0 {
          case Err(e) => return None, Some(Host(e));
          case Ok(v) => upper := v;
        }
        match temp.1 {
          case Err(e) => return None, Some(Host(e));
          case Ok(v) => work := v;
        }
      }
      var options: seq<string> := [];
      if upper == "" && work == "" {
        if |Lower| < 2 {
          return None, Some(ReadonlyLower);
        }
      } else {
        if |Lower| == 0 {
          return None, Some(EmptyLower);
        }
        options := options + [UPPER + upper, WORK + work];
      }
      options := options + [LOWER + Join(lower, ':'), USERXATTR];
      assert options == Options(upper, work, lower);
      var text := Join(options, ',');
      match mount(text) {
        case None => return Some(text), None;
        case Some(e) => return Some(text), Some(Host(e));
      }
    }

    /** Early and then Apply: a mount that is not ephemeral is made with the data of the resolved layers. */
    method Mount(resolve: string -> Result<string, nat>, mkdir: Option<nat>,
                 temp: (Result<string, nat>, Result<string, nat>), mount: string -> Option<nat>)
      returns (data: Option<string>, err: Option<OverlayError>)
      requires !ephemeral && upper == "" && work == ""
      modifies this
      ensures data.Some? && !(Upper == Some("/") && Work.None?) ==>
        && ResolvedLayers(resolve).Some? && ResolvedLayers(resolve).value.lower != []
        && data.value == DataOf(ResolvedLayers(resolve).value)
      ensures data.None? ==> err.Some?
    {
      err := Early(resolve);
      if err.Some? {
        return None, err;
      }
      data, err := Apply(mkdir, temp, mount);
      if data.Some? && !ephemeral {
        ghost var layers := ResolvedLayers(resolve).value;
        assert lower == EscapedAll(layers.lower);
        assert upper == Segment(layers.upper) && work == Segment(layers.work);
      }
    }

    /** The layers with their paths resolved, if all of them resolve. */
    ghost function ResolvedLayers(resolve: string -> Result<string, nat>): Option<Layers> {
      if (forall k :: 0 <= k < |Lower| ==> resolve(Lower[k]).Ok?)
         && (Upper.Some? ==> resolve(Upper.value).Ok?) && (Work.Some? ==> resolve(Work.value).Ok?) then
        Some(Layers(if Upper.Some? then Some(resolve(Upper.value).value) else None,
                    if Work.Some? then Some(resolve(Work.value).value) else None,
                    seq(|Lower|, k requires 0 <= k < |Lower| && resolve(Lower[k]).Ok? => resolve(Lower[k]).value)))
      else None
    }
  }

  function Segment(path: Option<string>): string {
    if path.Some? then EscapeOverlayDataSegment(path.value) else ""
  }

  /** The data that is built for these layers, upper and work together or readonly. */
  function DataOf(layers: Layers): string
    requires layers.lower != []
  {
    Data(Segment(layers.upper), Segment(layers.work), EscapedAll(layers.lower))
  }

  /** Layers as they come from toHost: upper and work together, no path empty or with a NUL. */
  predicate Mountable(layers: Layers) {
    && layers.lower != []
    && (forall k :: 0 <= k < |layers.lower| ==> NUL !in layers.lower[k])
    && (layers.upper.Some? <==> layers.work.Some?)
    && (layers.upper.Some? ==> NUL !in layers.upper.value && layers.upper.value != "" && NUL !in layers.work.value)
  }

  /** The data built for paths without NUL is read back as those paths. */
  lemma DataReadsBack(layers: Layers)
    requires Mountable(layers)
    ensures Read(DataOf(layers)) == Some(layers)
  {
    forall k | 0 <= k < |layers.lower| ensures Spells(EscapedAll(layers.lower)[k], layers.lower[k]) {
      EscapedSpells(layers.lower[k]);
    }
    if layers.upper.Some? {
      EscapedSpells(layers.upper.value);
      EscapedSpells(layers.work.value);
    }
    DataRead(Segment(layers.upper), Segment(layers.work), EscapedAll(layers.lower), layers.lower);
    hide Read, Data, Spells;
  }

  /** Distinct stacks of layers are mounted with distinct data. */
  lemma DataInjective(a: Layers, b: Layers)
    requires Mountable(a) && Mountable(b) && DataOf(a) == DataOf(b)
    ensures a == b
  {
    DataReadsBack(a);
    DataReadsBack(b);
  }
}
