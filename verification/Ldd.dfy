/** Reading and printing ldd(1) output (ldd/ldd.go). */
module Ldd {
  import opened Wrappers
  import opened Numerals
  import opened Text

  datatype Entry = Entry(name: string, path: Option<string>, location: nat)

  datatype DecodeError =
    | UnexpectedNewline | UnexpectedSeparator | BadLocationFormat
    | UnexpectedSegments | NotAbsolute | BadNumber
    | ScanFailed

  const WORD: nat := 0x1_0000_0000_0000_0000

  predicate IsSpace(c: char) {
    || '\t' <= c <= '\r' || c == ' ' || c == '\U{85}' || c == '\U{a0}' || c == '\U{1680}'
    || '\U{2000}' <= c <= '\U{200a}' || c == '\U{2028}' || c == '\U{2029}'
    || c == '\U{202f}' || c == '\U{205f}' || c == '\U{3000}'
  }

  /** TrimSpace. */
  function Trim(s: string): string {
    if s == [] then []
    else if IsSpace(s[0]) then Trim(s[1..])
    else if IsSpace(s[|s| - 1]) then Trim(s[..|s| - 1])
    else s
  }

  predicate IsAbs(s: string) {
    s != [] && s[0] == '/'
  }

  /** The address in a location segment, "(0x…)". */
  function DecodeLocation(segment: string): Result<nat, DecodeError> {
    if |segment| < 4 || segment[|segment| - 1] != ')' || segment[..3] != "(0x" then Err(BadLocationFormat)
    else
      var digits := segment[3..|segment| - 1];
      if digits != [] && IsNumeral(digits, 16) && Value(digits, 16) < WORD then Ok(Value(digits, 16))
      else Err(BadNumber)
  }

  /** UnmarshalText on a fresh entry. */
  function Unmarshal(data: string): Result<Entry, DecodeError> {
    var segments := Split(data, ' ');
    if |segments| == 2 then
      match DecodeLocation(segments[1])
      case Err(e) => Err(e)
      case Ok(location) => Ok(Entry(Trim(segments[0]), None, location))
    else if |segments| == 4 then
      if segments[1] != "=>" then Err(UnexpectedSeparator)
      else if !IsAbs(segments[2]) then Err(NotAbsolute)
      else
        match DecodeLocation(segments[3])
        case Err(e) => Err(e)
        case Ok(location) => Ok(Entry(Trim(segments[0]), Some(segments[2]), location))
    else Err(UnexpectedSegments)
  }

  function LocationText(location: nat): string {
    "(0x" + Format(location, 16) + ")"
  }

  /** Entry.String. */
  function String(e: Entry): string {
    var name := if e.name != "" then e.name else "invalid";
    if e.path.None? then name + [' '] + LocationText(e.location)
    else name + [' '] + ("=>" + [' '] + (e.path.value + [' '] + LocationText(e.location)))
  }

  /** An address of 64 bits, and a path, if any, that is absolute. */
  predicate IsEntry(e: Entry) {
    e.location < WORD && (e.path.Some? ==> IsAbs(e.path.value))
  }

  /** Names and paths of one word, the name trimmed. */
  predicate Printable(e: Entry) {
    && e.name != "" && ' ' !in e.name && Trim(e.name) == e.name
    && (e.path.Some? ==> ' ' !in e.path.value)
  }

  lemma LocationReadsBack(location: nat)
    requires location < WORD
    ensures DecodeLocation(LocationText(location)) == Ok(location) && ' ' !in LocationText(location)
    ensures Split(LocationText(location), ' ') == [LocationText(location)]
  {
    var digits := Format(location, 16);
    ValueFormat(location, 16);
    var s := LocationText(location);
    assert s[3..|s| - 1] == digits && s[..3] == "(0x";
    forall k | 0 <= k < |digits| ensures digits[k] != ' ' {
      assert DigitValue(digits[k]) < 16;
    }
    SplitOne(s, ' ');
  }

  lemma StringSegments(e: Entry)
    requires e.location < WORD
    ensures var name := if e.name != "" then e.name else "invalid";
      Split(String(e), ' ') ==
        if e.path.None? then Split(name, ' ') + [LocationText(e.location)]
        else Split(name, ' ') + (["=>"] + (Split(e.path.value, ' ') + [LocationText(e.location)]))
  {
    var name := if e.name != "" then e.name else "invalid";
    var location := LocationText(e.location);
    LocationReadsBack(e.location);
    if e.path.None? {
      SplitAt(name, location, ' ');
    } else {
      SplitAt(e.path.value, location, ' ');
      SplitAt("=>", e.path.value + [' '] + location, ' ');
      SplitOne("=>", ' ');
      SplitAt(name, "=>" + [' '] + (e.path.value + [' '] + location), ' ');
    }
  }

  lemma {:induction false} OnePieceIff(s: string, sep: char)
    ensures |Split(s, sep)| == 1 <==> sep !in s
    ensures |Split(s, sep)| == 1 ==> Split(s, sep)[0] == s
  {
    JoinSplit(s, sep);
    if sep !in s {
      SplitOne(s, sep);
    }
  }

  /** What the numbers of segments of a line mean. */
  lemma UnmarshalShape(data: string)
    ensures var segments, r := Split(data, ' '), Unmarshal(data);
      r.Ok? ==> |segments| == if r.value.path.None? then 2 else 4
  {
    hide Split, DecodeLocation, Trim, IsAbs;
  }

  lemma UnmarshalBare(data: string, name: string, location: nat)
    requires location < WORD && Split(data, ' ') == [name, LocationText(location)]
    ensures Unmarshal(data) == Ok(Entry(Trim(name), None, location))
  {
    LocationReadsBack(location);
    hide Split, DecodeLocation, Trim, LocationText;
  }

  lemma UnmarshalPath(data: string, name: string, path: string, location: nat)
    requires location < WORD && IsAbs(path) && Split(data, ' ') == [name, "=>", path, LocationText(location)]
    ensures Unmarshal(data) == Ok(Entry(Trim(name), Some(path), location))
  {
    LocationReadsBack(location);
    hide Split, DecodeLocation, Trim, LocationText, IsAbs;
  }

  /** The name printed is read back as that of the entry exactly if it is trimmed and not empty. */
  lemma NameReadsBack(e: Entry)
    ensures var name := if e.name != "" then e.name else "invalid";
      && (Trim(name) == e.name <==> e.name != "" && Trim(e.name) == e.name)
      && (e.name == "" ==> ' ' !in name)
  {
    assert Trim("invalid") == "invalid";
  }

  lemma BareReadsBackIff(e: Entry)
    requires IsEntry(e) && e.path.None?
    ensures Unmarshal(String(e)) == Ok(e) <==> Printable(e)
  {
    var name := if e.name != "" then e.name else "invalid";
    StringSegments(e);
    OnePieceIff(name, ' ');
    UnmarshalShape(String(e));
    NameReadsBack(e);
    hide Split, Trim, LocationText, String, Unmarshal;
    if ' ' !in name {
      assert Split(name, ' ') == [name];
      UnmarshalBare(String(e), name, e.location);
    }
  }

  lemma PathReadsBackIff(e: Entry)
    requires IsEntry(e) && e.path.Some?
    ensures Unmarshal(String(e)) == Ok(e) <==> Printable(e)
  {
    var name := if e.name != "" then e.name else "invalid";
    StringSegments(e);
    OnePieceIff(name, ' ');
    OnePieceIff(e.path.value, ' ');
    UnmarshalShape(String(e));
    NameReadsBack(e);
    hide Split, Trim, LocationText, String, Unmarshal;
    if ' ' !in name && ' ' !in e.path.value {
      assert Split(name, ' ') == [name] && Split(e.path.value, ' ') == [e.path.value];
      UnmarshalPath(String(e), name, e.path.value, e.location);
    }
  }

  /** An entry survives printing and reading exactly when it is printable. */
  lemma StringReadsBackIff(e: Entry)
    requires IsEntry(e)
    ensures Unmarshal(String(e)) == Ok(e) <==> Printable(e)
  {
    hide *;
    match e.path
    case None => BareReadsBackIff(e);
    case Some(_) => PathReadsBackIff(e);
  }

  function DropCR(line: string): string {
    if line != [] && line[|line| - 1] == '\r' then line[..|line| - 1] else line
  }

  /** The tokens of bufio.ScanLines. */
  function Lines(input: string): (r: seq<string>) {
    var parts := Split(input, '\n');
    var whole := if parts[|parts| - 1] == [] then parts[..|parts| - 1] else parts;
    seq(|whole|, k requires 0 <= k < |whole| => DropCR(whole[k]))
  }

  /** What is decoded from the second line on: the entries, and the error that ends them. */
  function Rest(lines: seq<string>): (seq<Entry>, Option<DecodeError>) {
    if lines == [] then ([], None)
    else if lines[0] == [] then ([], if |lines| > 1 then Some(UnexpectedNewline) else None)
    else
      match Unmarshal(lines[0])
      case Err(e) => ([], Some(e))
      case Ok(e) => ([e] + Rest(lines[1..]).0, Rest(lines[1..]).1)
  }

  function Decoded(lines: seq<string>): (seq<Entry>, Option<DecodeError>) {
    if lines != [] && lines[0] == [] then Rest(lines[1..]) else Rest(lines)
  }

  class Decoder {
    /** The lines the scanner has not yielded yet. */
    var s: seq<string>
    var notFirst: bool
    var depleted: bool
    var err: Option<DecodeError>

    constructor (lines: seq<string>)
      ensures Pending() == Decoded(lines)
    {
      s, notFirst, depleted, err := lines, false, false, None;
    }

    /** What the calls of Scan still to come will store, and the error they will end with. */
    ghost function Pending(): (seq<Entry>, Option<DecodeError>)
      reads this
    {
      if err.Some? || depleted then ([], err)
      else if notFirst then Rest(s)
      else Decoded(s)
    }

    method Scan() returns (more: bool, v: Entry)
      modifies this
      ensures more ==> old(Pending()) == ([v] + Pending().0, Pending().1)
      ensures !more ==> old(Pending()) == ([], err) == Pending()
      ensures more ==> |s| < old(|s|)
      decreases |s|
    {
      more, v := false, Entry("", None, 0);
      if err.Some? || depleted {
        return;
      }
      if |s| == 0 {
        depleted := true;
        return;
      }
      var data := s[0];
      s := s[1..];
      if |data| == 0 {
        if notFirst {
          if |s| != 0 {
            s, err := s[1..], Some(UnexpectedNewline);
          }
          return;
        }
        notFirst := true;
        more, v := Scan();
        return;
      }
      notFirst := true;
      match Unmarshal(data)
      case Err(e) => err := Some(e);
      case Ok(e) => more, v := true, e;
    }

    /** scanFails tells whether the scanner ends with an error of its own after the lines. */
    method Decode(scanFails: bool) returns (entries: seq<Entry>, e: Option<DecodeError>)
      modifies this
      ensures entries == old(Pending()).0
      ensures e == if old(Pending()).1.None? && scanFails then Some(ScanFailed) else old(Pending()).1
    {
      hide Pending, Rest, Decoded;
      entries := [];
      var more, v := Scan();
      ghost var left := if more then [v] + Pending().0 else [];
      while more
        invariant old(Pending()).0 == entries + left && left == if more then [v] + Pending().0 else []
        invariant old(Pending()).1 == Pending().1
        invariant !more ==> Pending() == ([], err)
        decreases more, |s|
      {
        Shift(entries, v, Pending().0);
        left := Pending().0;
        entries := entries + [v];
        more, v := Scan();
      }
      e := if err.None? && scanFails then Some(ScanFailed) else err;
      assert entries + [] == entries;
    }
  }

  lemma Shift(entries: seq<Entry>, v: Entry, rest: seq<Entry>)
    ensures entries + ([v] + rest) == entries + [v] + rest
  {
  }

  function Strings(entries: seq<Entry>): (r: seq<string>)
    ensures |r| == |entries|
  {
    seq(|entries|, k requires 0 <= k < |entries| => String(entries[k]))
  }

  /** Entries that can be printed on a line each. */
  predicate Tabular(entries: seq<Entry>) {
    forall k :: 0 <= k < |entries| ==>
      && IsEntry(entries[k]) && Printable(entries[k])
      && '\n' !in entries[k].name && (entries[k].path.Some? ==> '\n' !in entries[k].path.value)
  }

  lemma StringIsLine(e: Entry)
    requires IsEntry(e) && Printable(e)
    requires '\n' !in e.name && (e.path.Some? ==> '\n' !in e.path.value)
    ensures '\n' !in String(e) && String(e) != [] && DropCR(String(e)) == String(e)
  {
    var digits := Format(e.location, 16);
    ValueFormat(e.location, 16);
    forall k | 0 <= k < |digits| ensures digits[k] != '\n' {
      assert DigitValue(digits[k]) < 16;
    }
  }

  lemma RestStep(line: string, e: Entry, more: seq<string>)
    requires line != [] && Unmarshal(line) == Ok(e)
    ensures Rest([line] + more) == ([e] + Rest(more).0, Rest(more).1)
  {
    hide Unmarshal;
    assert ([line] + more)[1..] == more;
  }

  lemma {:induction false} RestOfStrings(entries: seq<Entry>, tail: seq<string>)
    requires Tabular(entries) && (tail == [] || tail == [[]])
    ensures Rest(Strings(entries) + tail) == (entries, None)
  {
    if entries == [] {
      assert Strings(entries) + tail == tail;
    } else {
      var e, more := entries[0], entries[1..];
      assert Strings(entries) + tail == [String(e)] + (Strings(more) + tail);
      assert entries == [e] + more;
      StringIsLine(e);
      StringReadsBackIff(e);
      RestOfStrings(more, tail);
      hide String, Unmarshal, Rest, Strings;
      RestStep(String(e), e, Strings(more) + tail);
    }
  }

  /** Whole lines come out of the scanner as they are. */
  lemma WholeLines(input: string, whole: seq<string>)
    requires forall k :: 0 <= k < |whole| ==> DropCR(whole[k]) == whole[k]
    requires (Split(input, '\n') == whole && whole != [] && whole[|whole| - 1] != [])
      || Split(input, '\n') == whole + [[]]
    ensures Lines(input) == whole
  {
    var parts := Split(input, '\n');
    if parts == whole + [[]] {
      assert parts[..|parts| - 1] == whole;
    }
    hide Split, DropCR;
  }

  function Lead(lead: bool): string {
    if lead then "\n" else ""
  }

  /** No newline at the end, one, or one and a blank line. */
  function Trail(blank: nat): string {
    if blank == 0 then "" else if blank == 1 then "\n" else "\n\n"
  }

  function Blank(present: bool): seq<string> {
    if present then [[]] else []
  }

  lemma TrailSplits(body: string, parts: seq<string>, blank: nat)
    requires Split(body, '\n') == parts
    ensures Split(body + Trail(blank), '\n') == parts + if blank >= 2 then [[], []] else Blank(blank == 1)
  {
    assert Split("", '\n') == [[]];
    hide Split;
    if blank == 0 {
      assert body + "" == body && parts + [] == parts;
    } else {
      SplitAt(body, "", '\n');
      assert body + ['\n'] + "" == body + "\n";
      SplitAt(body + "\n", "", '\n');
      assert body + "\n" + ['\n'] + "" == body + "\n\n";
      assert parts + [[]] + [[]] == parts + [[], []];
    }
  }

  lemma TextSplits(strings: seq<string>, lead: bool, blank: nat)
    requires strings != [] && forall k :: 0 <= k < |strings| ==> '\n' !in strings[k]
    ensures Split(Lead(lead) + Join(strings, '\n') + Trail(blank), '\n') ==
      Blank(lead) + strings + if blank >= 2 then [[], []] else Blank(blank == 1)
  {
    var text := Join(strings, '\n');
    SplitJoin(strings, '\n');
    assert Split("", '\n') == [[]];
    hide Split, Join;
    if lead {
      SplitAt("", text, '\n');
      assert "" + ['\n'] + text == Lead(true) + text;
    } else {
      assert "" + text == text && [] + strings == strings;
    }
    TrailSplits(Lead(lead) + text, Blank(lead) + strings, blank);
  }

  /** The lines of printed entries, with the blank ones that count. */
  lemma TableLines(entries: seq<Entry>, lead: bool, blank: nat)
    requires Tabular(entries) && entries != []
    ensures Lines(Lead(lead) + Join(Strings(entries), '\n') + Trail(blank)) ==
      Blank(lead) + Strings(entries) + Blank(blank >= 2)
  {
    var strings := Strings(entries);
    forall k | 0 <= k < |strings|
      ensures '\n' !in strings[k] && strings[k] != [] && DropCR(strings[k]) == strings[k]
    {
      StringIsLine(entries[k]);
    }
    TextSplits(strings, lead, blank);
    assert DropCR([]) == [];
    hide String, Split, Join, DropCR, Strings, Tabular, Lines;
    var whole := Blank(lead) + strings + Blank(blank >= 2);
    assert blank >= 2 ==> whole + [[]] == Blank(lead) + strings + [[], []];
    WholeLines(Lead(lead) + Join(strings, '\n') + Trail(blank), whole);
  }

  lemma LeadIsSkipped(lead: bool, more: seq<string>)
    requires more != [] && more[0] != []
    ensures Decoded(Blank(lead) + more) == Rest(more)
  {
    hide Rest;
    if lead {
      assert ([[]] + more)[1..] == more;
    } else {
      assert [] + more == more;
    }
  }

  /** Decoding printed entries gives the entries, with or without a blank line before and after them. */
  lemma TableReadsBack(entries: seq<Entry>, lead: bool, blank: nat)
    requires Tabular(entries) && entries != []
    ensures Decoded(Lines(Lead(lead) + Join(Strings(entries), '\n') + Trail(blank))) == (entries, None)
  {
    var strings := Strings(entries);
    StringIsLine(entries[0]);
    assert strings[0] == String(entries[0]);
    hide String, Join, Rest, Strings, Tabular, Lines, Decoded;
    TableLines(entries, lead, blank);
    RestOfStrings(entries, Blank(blank >= 2));
    LeadIsSkipped(lead, strings + Blank(blank >= 2));
    assert Blank(lead) + strings + Blank(blank >= 2) == Blank(lead) + (strings + Blank(blank >= 2));
  }

  /** Nothing but at most one blank line decodes to nothing. */
  lemma EmptyReadsBack(lead: bool)
    ensures Decoded(Lines(Lead(lead))) == ([], None)
  {
    assert Split("", '\n') == [[]] && "\n"[1..] == "" && Split("\n", '\n') == [[], []];
    WholeLines(Lead(lead), Blank(lead));
  }

  /** A blank line after entries, with more input behind it, ends the decoding with an error. */
  lemma {:induction false} BlankLineFails(lines: seq<string>, k: nat)
    requires k < |lines| - 1 && lines[k] == []
    requires forall j :: 0 <= j < k ==> lines[j] != [] && Unmarshal(lines[j]).Ok?
    ensures |Rest(lines).0| == k && Rest(lines).1 == Some(UnexpectedNewline)
    decreases k
  {
    hide Unmarshal;
    if k > 0 {
      BlankLineFails(lines[1..], k - 1);
    }
  }

  /** The decoding ends without an error exactly if every line reads, but for a blank last one. */
  lemma {:induction false} RestSucceedsIff(lines: seq<string>)
    ensures Rest(lines).1.None? <==>
      forall k :: 0 <= k < |lines| ==>
        if lines[k] == [] then k == |lines| - 1 else Unmarshal(lines[k]).Ok?
  {
    hide Unmarshal;
    if lines != [] && lines[0] != [] {
      RestSucceedsIff(lines[1..]);
      if Rest(lines[1..]).1.None? {
        forall k | 1 <= k < |lines| ensures if lines[k] == [] then k == |lines| - 1 else Unmarshal(lines[k]).Ok? {
          assert lines[1..][k - 1] == lines[k];
        }
      } else {
        var k :| 0 <= k < |lines[1..]| &&
          !(if lines[1..][k] == [] then k == |lines[1..]| - 1 else Unmarshal(lines[1..][k]).Ok?);
        assert lines[1..][k] == lines[k + 1];
      }
    }
  }
}
