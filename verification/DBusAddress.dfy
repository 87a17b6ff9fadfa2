/** D-Bus server addresses (internal/dbus/address.go). */
module DBusAddress {
  import opened Wrappers
  import opened Numerals
  import opened Text

  /** The ParseError values, and the runtime's index panic. */
  datatype Fault =
    | NoColon | BadPairSep | BadPairKey | BadPairVal
    | BadValLength | BadValByte | BadValHexLength | BadValHexByte
    | Panic

  datatype AddrEntry = AddrEntry(name: string, values: seq<(string, string)>)

  /** Bytes that may stand for themselves. */
  predicate Optional(c: char) {
    || c == '-' || c == '_' || c == '/' || c == '.' || c == '\\' || c == '*'
    || '0' <= c <= '9' || 'A' <= c <= 'Z' || 'a' <= c <= 'z'
  }

  predicate IsEscape(v: string) {
    |v| >= 3 && v[0] == '%' && DigitValue(v[1]) < 16 && DigitValue(v[2]) < 16
  }

  function HexByte(a: char, b: char): char
    requires DigitValue(a) < 16 && DigitValue(b) < 16
  {
    (DigitValue(a) * 16 + DigitValue(b)) as char
  }

  /** The longest start of v made of plain bytes and escapes: its length and the bytes it stands for. */
  function Scan(v: string): (r: (nat, string))
    ensures r.0 <= |v|
    ensures r.0 == |v| || !(Optional(v[r.0]) || IsEscape(v[r.0..]))
  {
    if v != [] && Optional(v[0]) then
      var (n, d) := Scan(v[1..]);
      (n + 1, [v[0]] + d)
    else if IsEscape(v) then
      var (n, d) := Scan(v[3..]);
      (n + 3, [HexByte(v[1], v[2])] + d)
    else (0, [])
  }

  function Percents(v: string): nat {
    if v == [] then 0 else (if v[0] == '%' then 1 else 0) + Percents(v[1..])
  }

  /** The room unescapeValue makes for v. */
  function Room(v: string): int {
    |v| - Percents(v) * 2
  }

  lemma ScanPlain(s: string)
    requires s != [] && Optional(s[0])
    ensures Scan(s) == (Scan(s[1..]).0 + 1, [s[0]] + Scan(s[1..]).1) && Percents(s) == Percents(s[1..])
  {
  }

  lemma ScanEscape(s: string)
    requires IsEscape(s)
    ensures |s| >= 3 && DigitValue(s[1]) < 16 && DigitValue(s[2]) < 16
    ensures Scan(s) == (Scan(s[3..]).0 + 3, [HexByte(s[1], s[2])] + Scan(s[3..]).1)
  {
    assert !Optional('%');
    hide HexByte, DigitValue;
  }

  lemma PercentsOfEscape(s: string)
    requires IsEscape(s)
    ensures Percents(s) == 1 + Percents(s[3..])
  {
    assert s[1..][1..] == s[2..] && s[2..][1..] == s[3..];
    assert Percents(s[1..]) == Percents(s[2..]) && Percents(s[2..]) == Percents(s[3..]);
  }

  lemma ScanNothing(s: string)
    requires (s == [] || !Optional(s[0])) && !IsEscape(s)
    ensures Scan(s) == (0, [])
  {
  }

  /** Each byte scanned uses up one byte of the room. */
  lemma {:induction false} ScanUsesRoom(v: string)
    ensures Room(v) == |Scan(v).1| + Room(v[Scan(v).0..])
  {
    hide Scan, Percents, Optional, IsEscape, HexByte;
    var n := Scan(v).0;
    if v != [] && Optional(v[0]) {
      ScanUsesRoom(v[1..]);
      ScanPlain(v);
      assert v[1..][n - 1..] == v[n..];
    } else if IsEscape(v) {
      ScanEscape(v);
      PercentsOfEscape(v);
      ScanUsesRoom(v[3..]);
      assert v[3..][n - 3..] == v[n..];
    } else {
      ScanNothing(v);
      assert v[0..] == v;
    }
  }

  /** The fault of a value whose start, tail, is neither a plain byte nor an escape. */
  function TailFault(tail: string): Fault
    requires tail != []
  {
    if tail[0] != '%' then BadValByte
    else if |tail| < 3 then BadValHexLength
    else BadValHexByte
  }

  /** The buffer is too small for the bytes before the tail, or for the one a bad escape would decode to. */
  predicate Overruns(v: string) {
    var tail := v[Scan(v).0..];
    tail != [] && (Room(tail) < 0 || (Room(tail) == 0 && TailFault(tail).BadValHexByte?))
  }

  function Unescape(v: string): Result<string, Fault> {
    var tail := v[Scan(v).0..];
    if Room(v) < 0 then Err(BadValLength)
    else if Overruns(v) then Err(Panic)
    else if tail == [] then Ok(Scan(v).1)
    else Err(TailFault(tail))
  }

  /** Scanning can start again at any position between two units. */
  predicate Resumes(v: string, at: nat, before: string) {
    && at <= |v|
    && Scan(v) == (at + Scan(v[at..]).0, before + Scan(v[at..]).1)
  }

  lemma ResumePlain(v: string, at: nat, before: string)
    requires Resumes(v, at, before) && at < |v| && Optional(v[at])
    ensures Resumes(v, at + 1, before + [v[at]])
  {
    hide Scan;
    var s := v[at..];
    ScanPlain(s);
    assert s[1..] == v[at + 1..];
    assert before + ([v[at]] + Scan(s[1..]).1) == before + [v[at]] + Scan(s[1..]).1;
  }

  lemma ResumeEscape(v: string, at: nat, before: string)
    requires Resumes(v, at, before) && at + 2 < |v|
    requires v[at] == '%' && DigitValue(v[at + 1]) < 16 && DigitValue(v[at + 2]) < 16
    ensures Resumes(v, at + 3, before + [HexByte(v[at + 1], v[at + 2])])
  {
    hide Scan;
    var s := v[at..];
    assert IsEscape(s);
    ScanEscape(s);
    assert s[3..] == v[at + 3..];
    assert before + ([HexByte(s[1], s[2])] + Scan(s[3..]).1) == before + [HexByte(s[1], s[2])] + Scan(s[3..]).1;
  }

  /** How much of the room is left when the scan has come to a position, and to its end. */
  lemma RoomLeft(v: string, at: nat, before: string)
    requires Resumes(v, at, before)
    ensures Room(v) - |before| == Room(v[at..]) == |Scan(v[at..]).1| + Room(v[Scan(v).0..])
  {
    ScanUsesRoom(v);
    ScanUsesRoom(v[at..]);
    assert v[at..][Scan(v[at..]).0..] == v[Scan(v).0..];
  }

  lemma PanicsHere(v: string, at: nat, before: string)
    requires Resumes(v, at, before) && at < |v| && 0 <= Room(v) <= |before|
    requires Optional(v[at]) || (v[at] == '%' && at + 2 < |v|)
    ensures Unescape(v) == Err(Panic)
  {
    RoomLeft(v, at, before);
    if Optional(v[at]) {
      assert v[at..] != [];
    } else if IsEscape(v[at..]) {
      ScanEscape(v[at..]);
    }
    assert Room([]) == 0;
  }

  /** Where the scan cannot go on with room left, its fault is the result. */
  lemma StopsHere(v: string, at: nat, before: string)
    requires Resumes(v, at, before) && at < |v| && !Optional(v[at])
    requires !(v[at] == '%' && at + 2 < |v| && DigitValue(v[at + 1]) < 16 && DigitValue(v[at + 2]) < 16)
    requires |before| <= Room(v) && (v[at] == '%' && at + 2 < |v| ==> |before| < Room(v))
    ensures Unescape(v) ==
      Err(if v[at] != '%' then BadValByte else if at + 2 >= |v| then BadValHexLength else BadValHexByte)
  {
    RoomLeft(v, at, before);
  }

  lemma EndsHere(v: string, before: string)
    requires Resumes(v, |v|, before) && |before| <= Room(v)
    ensures |before| == Room(v) && Unescape(v) == Ok(before)
  {
    RoomLeft(v, |v|, before);
    assert v[|v|..] == [] && before + [] == before;
  }

  lemma {:induction false} Counted(v: string, k: nat)
    requires k < |v|
    ensures Percents(v[..k + 1]) == Percents(v[..k]) + if v[k] == '%' then 1 else 0
  {
    if k > 0 {
      Counted(v[1..], k - 1);
      assert v[..k + 1][1..] == v[1..][..k] && v[..k][1..] == v[1..][..k - 1];
    } else {
      assert v[..1][1..] == [];
    }
  }

  method Count(v: string) returns (n: nat)
    ensures n == Percents(v)
  {
    n := 0;
    for k := 0 to |v|
      invariant n == Percents(v[..k])
    {
      Counted(v, k);
      if v[k] == '%' {
        n := n + 1;
      }
    }
    assert v[..|v|] == v;
  }

  lemma Starts(v: string)
    ensures Resumes(v, 0, "")
  {
    assert v[0..] == v && [] + Scan(v).1 == Scan(v).1;
  }

  /** The byte at iu and how many after it to skip; room tells whether the buffer has room for one more. */
  method Unit(v: string, iu: nat, room: bool, ghost before: string) returns (r: Result<(char, nat), Fault>)
    requires iu < |v| && Resumes(v, iu, before) && |before| <= Room(v) && (room <==> |before| < Room(v))
    ensures r.Err? ==> Unescape(v) == Err(r.error)
    ensures r.Ok? ==> room && iu + 1 + r.value.1 <= |v| && Resumes(v, iu + 1 + r.value.1, before + [r.value.0])
  {
    hide Scan, Optional, Unescape, Room, Resumes, HexByte, DigitValue;
    if Optional(v[iu]) {
      if !room {
        PanicsHere(v, iu, before);
        return Err(Panic);
      }
      ResumePlain(v, iu, before);
      return Ok((v[iu], 0));
    }
    if v[iu] != '%' {
      StopsHere(v, iu, before);
      return Err(BadValByte);
    }
    if iu + 2 >= |v| {
      StopsHere(v, iu, before);
      return Err(BadValHexLength);
    }
    if !room {
      PanicsHere(v, iu, before);
      return Err(Panic);
    }
    if DigitValue(v[iu + 1]) >= 16 || DigitValue(v[iu + 2]) >= 16 {
      StopsHere(v, iu, before);
      return Err(BadValHexByte);
    }
    ResumeEscape(v, iu, before);
    return Ok((HexByte(v[iu + 1], v[iu + 2]), 2));
  }

  method UnescapeValue(v: string) returns (r: Result<string, Fault>)
    ensures r == Unescape(v)
  {
    var count := Count(v);
    var l := |v| - count * 2;
    if l < 0 {
      return Err(BadValLength);
    }
    r := Fill(v, l);
  }

  /** The loop of unescapeValue, with a buffer of length l. */
  method Fill(v: string, l: nat) returns (r: Result<string, Fault>)
    requires l == Room(v)
    ensures r == Unescape(v)
  {
    hide Scan, Optional, IsEscape, Unescape, Room, Resumes, Percents;
    var val := new char[l];
    var i, skip, iu := 0, 0, 0;
    ghost var before := "";
    Starts(v);
    while iu < |v|
      invariant iu + skip <= |v|
      invariant i <= l && val[..i] == before
      invariant Resumes(v, iu + skip, before)
    {
      if skip > 0 {
        skip := skip - 1;
      } else {
        var unit := Unit(v, iu, i < val.Length, before);
        if unit.Err? {
          return Err(unit.error);
        }
        val[i] := unit.value.0;
        i, skip, before := i + 1, unit.value.1, before + [unit.value.0];
      }
      iu := iu + 1;
    }
    EndsHere(v, before);
    assert val[..i] == val[..];
    return Ok(val[..]);
  }

  /** Every percent sign starts a complete escape. */
  predicate Complete(v: string) {
    forall k :: 0 <= k < |v| && v[k] == '%' ==> IsEscape(v[k..])
  }

  lemma {:induction false} CompleteHasRoom(v: string)
    requires Complete(v)
    ensures Room(v) >= 0
    decreases |v|
  {
    if v != [] {
      var n := if v[0] == '%' then 3 else 1;
      assert v[0..] == v;
      forall k | 0 <= k < |v[n..]| && v[n..][k] == '%' ensures IsEscape(v[n..][k..]) {
        assert v[n..][k..] == v[n + k..];
      }
      CompleteHasRoom(v[n..]);
      if n == 3 {
        assert v[1..][1..] == v[2..] && v[2..][1..] == v[3..];
        assert Percents(v[1..]) == Percents(v[2..]) && Percents(v[2..]) == Percents(v[3..]);
      }
    }
  }

  /** On complete values there is no panic, and a success fills the buffer exactly. */
  lemma CompleteIsSafe(v: string)
    requires Complete(v)
    ensures Room(v) >= 0 && Unescape(v) != Err(Panic)
    ensures Unescape(v).Ok? ==> |Unescape(v).value| == Room(v)
    ensures Unescape(v).Err? ==> Unescape(v) == Err(BadValByte)
  {
    CompleteHasRoom(v);
    ScanUsesRoom(v);
    var n := Scan(v).0;
    var tail := v[n..];
    if tail != [] {
      forall k | 0 <= k < |tail| && tail[k] == '%' ensures IsEscape(tail[k..]) {
        assert tail[k..] == v[n + k..];
      }
      CompleteHasRoom(tail);
      assert tail[0..] == tail;
    } else {
      assert Room(tail) == 0;
    }
  }

  /** Percent signs that start no escape can make the buffer too small: this value panics. */
  lemma StrayPercentsPanic()
    ensures Unescape("aa%%") == Err(Panic)
  {
    var v := "aa%%";
    assert v[1..] == "a%%" && v[1..][1..] == "%%" && "%%"[1..] == "%" && "%"[1..] == "";
    assert Scan("%%") == (0, "") && Scan("a%%").0 == 1 && Scan(v).0 == 2;
    assert Percents("%") == 1 && Percents("%%") == 2 && Percents("a%%") == 2 && Percents(v) == 2;
    assert v[2..] == "%%";
  }

  /** The text is a spelling of the value: each byte plain, if it may be, or escaped. */
  predicate Spells(text: string, value: string)
    decreases |text|
  {
    if text == [] then value == []
    else
      && value != []
      && if IsEscape(text) then value[0] == HexByte(text[1], text[2]) && Spells(text[3..], value[1..])
         else Optional(text[0]) && value[0] == text[0] && Spells(text[1..], value[1..])
  }

  lemma {:induction false} SpellsScans(text: string, value: string)
    ensures Spells(text, value) <==> Scan(text) == (|text|, value)
    decreases |text|
  {
    if text == [] {
    } else if IsEscape(text) {
      ScanEscape(text);
      if value != [] {
        SpellsScans(text[3..], value[1..]);
        assert value == [value[0]] + value[1..];
        assert ([HexByte(text[1], text[2])] + Scan(text[3..]).1)[1..] == Scan(text[3..]).1;
      }
    } else if value != [] {
      SpellsScans(text[1..], value[1..]);
      assert value == [value[0]] + value[1..];
      assert ([text[0]] + Scan(text[1..]).1)[1..] == Scan(text[1..]).1;
    }
  }

  /** unescapeValue succeeds exactly on spellings, with the value spelled. */
  lemma UnescapesIff(text: string, value: string)
    ensures Unescape(text) == Ok(value) <==> Spells(text, value)
  {
    SpellsScans(text, value);
    ScanUsesRoom(text);
    assert text[|text|..] == [] && Room([]) == 0;
  }

  /** A key and its value. */
  function ReadPair(pair: string): Result<(string, string), Fault> {
    match Cut(pair, '=')
    case None => Err(BadPairSep)
    case Some((key, value)) =>
      if key == [] then Err(BadPairKey)
      else if value == [] then Err(BadPairVal)
      else
        match Unescape(value)
        case Err(f) => Err(f)
        case Ok(val) => Ok((key, val))
  }

  /** The pairs of an entry. */
  function PairsOf(s: string): seq<string> {
    match Cut(s, ':')
    case None => []
    case Some((_, list)) => Split(list, ',')
  }

  /** The segment s is the entry e. */
  ghost predicate ReadsAs(s: string, e: AddrEntry) {
    && Cut(s, ':').Some? && e.name == Cut(s, ':').value.0
    && |e.values| == |PairsOf(s)|
    && forall j :: 0 <= j < |e.values| ==> ReadPair(PairsOf(s)[j]) == Ok(e.values[j])
  }

  /** What is left of the segment s in its entry when pair number j of it, or with -1 its colon, fails. */
  ghost predicate LeftAs(s: string, j: int, e: AddrEntry) {
    if j == -1 then e == AddrEntry("", [])
    else
      && Cut(s, ':').Some? && e.name == Cut(s, ':').value.0
      && |e.values| == |PairsOf(s)| && 0 <= j < |e.values|
      && (forall k :: 0 <= k < j ==> ReadPair(PairsOf(s)[k]) == Ok(e.values[k]))
      && e.values[j] == LeftOf(PairsOf(s)[j])
      && forall k :: j < k < |e.values| ==> e.values[k] == ("", "")
  }

  /** What is wrong with the segment s first: pair number j of it, or with -1 its colon. */
  ghost predicate Fails(s: string, j: int, f: Fault) {
    if j == -1 then f == NoColon && Cut(s, ':').None?
    else
      && 0 <= j < |PairsOf(s)| && ReadPair(PairsOf(s)[j]) == Err(f)
      && forall k :: 0 <= k < j ==> ReadPair(PairsOf(s)[k]).Ok?
  }

  /** The segments of an address, without the one an optional final semicolon would add. */
  function Segments(addr: string): (r: seq<string>)
    ensures r != []
  {
    Split(if addr != [] && addr[|addr| - 1] == ';' then addr[..|addr| - 1] else addr, ';')
  }

  ghost predicate Parses(addr: string, entries: seq<AddrEntry>) {
    && |entries| == |Segments(addr)|
    && forall i :: 0 <= i < |entries| ==> ReadsAs(Segments(addr)[i], entries[i])
  }

  datatype BadAddress = BadAddress(fault: Fault, entryPos: nat, pairPos: int)

  /** What a pair that fails leaves: its key, if it has a value that does not unescape. */
  function LeftOf(pair: string): (string, string) {
    match Cut(pair, '=')
    case None => ("", "")
    case Some((key, value)) => if key == [] || value == [] then ("", "") else (key, "")
  }

  /** The pairs of an entry, all of them or those before the first bad one and what that one leaves. */
  method ParsePairs(pairs: seq<string>) returns (values: seq<(string, string)>, bad: Option<(nat, Fault)>)
    ensures |values| == |pairs|
    ensures bad.None? ==> forall j :: 0 <= j < |pairs| ==> ReadPair(pairs[j]) == Ok(values[j])
    ensures bad.Some? ==>
      && bad.value.0 < |pairs| && ReadPair(pairs[bad.value.0]) == Err(bad.value.1)
      && (forall k :: 0 <= k < bad.value.0 ==> ReadPair(pairs[k]) == Ok(values[k]))
      && values[bad.value.0] == LeftOf(pairs[bad.value.0])
      && forall k :: bad.value.0 < k < |pairs| ==> values[k] == ("", "")
  {
    values := seq(|pairs|, _ => ("", ""));
    for j := 0 to |pairs|
      invariant |values| == |pairs|
      invariant forall k :: 0 <= k < j ==> ReadPair(pairs[k]) == Ok(values[k])
      invariant forall k :: j <= k < |pairs| ==> values[k] == ("", "")
    {
      match Cut(pairs[j], '=') {
        case None => return values, Some((j, BadPairSep));
        case Some((key, value)) =>
          if |key| == 0 {
            return values, Some((j, BadPairKey));
          }
          if |value| == 0 {
            return values, Some((j, BadPairVal));
          }
          values := values[j := (key, "")];
          var val := UnescapeValue(value);
          match val {
            case Err(f) => return values, Some((j, f));
            case Ok(v) => values := values[j := (key, v)];
          }
      }
    }
    bad := None;
  }

  /** The result has an entry for every segment; those after a bad one are empty, and the bad one has
      its name, if it has a colon, and the pairs up to the bad one. */
  method Parse(addr: string) returns (v: seq<AddrEntry>, bad: Option<BadAddress>)
    ensures bad.None? ==> Parses(addr, v)
    ensures |v| == |Segments(addr)|
    ensures bad.Some? ==>
      && bad.value.entryPos < |v|
      && Fails(Segments(addr)[bad.value.entryPos], bad.value.pairPos, bad.value.fault)
      && (forall i :: 0 <= i < bad.value.entryPos ==> ReadsAs(Segments(addr)[i], v[i]))
      && LeftAs(Segments(addr)[bad.value.entryPos], bad.value.pairPos, v[bad.value.entryPos])
      && forall i :: bad.value.entryPos < i < |v| ==> v[i] == AddrEntry("", [])
  {
    var address := Segments(addr);
    v := seq(|address|, _ => AddrEntry("", []));
    for i := 0 to |address|
      invariant |v| == |address|
      invariant forall k :: 0 <= k < i ==> ReadsAs(address[k], v[k])
      invariant forall k :: i <= k < |v| ==> v[k] == AddrEntry("", [])
    {
      match Cut(address[i], ':') {
        case None => return v, Some(BadAddress(NoColon, i, -1));
        case Some((name, list)) =>
          var values, wrong := ParsePairs(Split(list, ','));
          v := v[i := AddrEntry(name, values)];
          if wrong.Some? {
            return v, Some(BadAddress(wrong.value.1, i, wrong.value.0));
          }
      }
    }
    bad := None;
  }

  /** An entry with its values as they are written. */
  datatype Written = Written(name: string, pairs: seq<(string, string)>)

  function PairText(p: (string, string)): string {
    p.0 + ['='] + p.1
  }

  function PairTexts(pairs: seq<(string, string)>): seq<string> {
    seq(|pairs|, j requires 0 <= j < |pairs| => PairText(pairs[j]))
  }

  function EntryText(w: Written): string
    requires w.pairs != []
  {
    w.name + [':'] + Join(PairTexts(w.pairs), ',')
  }

  ghost predicate WritesPair(p: (string, string), value: (string, string)) {
    && p.0 == value.0 && p.0 != [] && p.1 != []
    && '=' !in p.0 && ',' !in p.0 && ';' !in p.0
    && Spells(p.1, value.1)
  }

  /** w is the entry e in the form the Server Addresses section of the D-Bus Specification gives. */
  ghost predicate Writes(w: Written, e: AddrEntry) {
    && w.name == e.name && ':' !in w.name && ';' !in w.name
    && |w.pairs| == |e.values| && w.pairs != []
    && forall j :: 0 <= j < |w.pairs| ==> WritesPair(w.pairs[j], e.values[j])
  }

  function Texts(ws: seq<Written>): (r: seq<string>)
    requires forall i :: 0 <= i < |ws| ==> ws[i].pairs != []
  {
    seq(|ws|, i requires 0 <= i < |ws| => EntryText(ws[i]))
  }

  function Address(ws: seq<Written>): string
    requires ws != [] && forall i :: 0 <= i < |ws| ==> ws[i].pairs != []
  {
    Join(Texts(ws), ';')
  }

  ghost predicate WritesAll(ws: seq<Written>, entries: seq<AddrEntry>) {
    && ws != [] && |ws| == |entries|
    && forall i :: 0 <= i < |ws| ==> Writes(ws[i], entries[i])
  }

  lemma {:induction false} SpellingIsPlain(text: string, value: string)
    requires Spells(text, value)
    ensures ',' !in text && ';' !in text && (text != [] ==> text[|text| - 1] != ';')
    decreases |text|
  {
    if text != [] {
      var n := if IsEscape(text) then 3 else 1;
      SpellingIsPlain(text[n..], value[1..]);
      assert text == text[..n] + text[n..];
      assert n == 3 ==> text[..n] == [text[0], text[1], text[2]];
      assert n == 1 ==> text[..n] == [text[0]];
    }
  }

  lemma PairReads(p: (string, string), value: (string, string))
    requires WritesPair(p, value)
    ensures ReadPair(PairText(p)) == Ok(value)
    ensures ',' !in PairText(p) && ';' !in PairText(p)
  {
    SpellingIsPlain(p.1, value.1);
    UnescapesIff(p.1, value.1);
    CutFirst(p.0, p.1, '=');
  }

  lemma {:induction false} JoinHas(parts: seq<string>, sep: char, c: char)
    requires parts != [] && c != sep && forall k :: 0 <= k < |parts| ==> c !in parts[k]
    ensures c !in Join(parts, sep)
    decreases |parts|
  {
    if |parts| > 1 {
      JoinHas(parts[1..], sep, c);
    }
  }

  lemma EntryReads(w: Written, e: AddrEntry)
    requires Writes(w, e)
    ensures ReadsAs(EntryText(w), e) && ';' !in EntryText(w) && EntryText(w) != []
  {
    var pairs := PairTexts(w.pairs);
    forall j | 0 <= j < |pairs|
      ensures ',' !in pairs[j] && ';' !in pairs[j] && ReadPair(pairs[j]) == Ok(e.values[j])
    {
      PairReads(w.pairs[j], e.values[j]);
    }
    SplitJoin(pairs, ',');
    JoinHas(pairs, ',', ';');
    CutFirst(w.name, Join(pairs, ','), ':');
  }

  lemma {:induction false} SplitLacks(s: string, sep: char, c: char)
    requires c !in s
    ensures forall k :: 0 <= k < |Split(s, sep)| ==> c !in Split(s, sep)[k]
  {
    if s != [] {
      SplitLacks(s[1..], sep, c);
    }
  }

  lemma {:induction false} LastIsPart(parts: seq<string>, sep: char)
    requires parts != [] && parts[|parts| - 1] != []
    ensures Join(parts, sep) != [] && Join(parts, sep)[|Join(parts, sep)| - 1] in parts[|parts| - 1]
    decreases |parts|
  {
    if |parts| > 1 {
      LastIsPart(parts[1..], sep);
    }
  }

  lemma SegmentsOfJoin(texts: seq<string>)
    requires texts != [] && forall k :: 0 <= k < |texts| ==> ';' !in texts[k] && texts[k] != []
    ensures Segments(Join(texts, ';')) == texts && Segments(Join(texts, ';') + ";") == texts
  {
    SplitJoin(texts, ';');
    LastIsPart(texts, ';');
    var address := Join(texts, ';');
    assert (address + ";")[..|address|] == address;
    hide Split, Join;
  }

  lemma JoinOfSegments(addr: string)
    ensures var address := Join(Segments(addr), ';'); addr == address || addr == address + ";"
    ensures forall k :: 0 <= k < |Segments(addr)| ==> ';' !in Segments(addr)[k]
  {
    JoinSplit(if addr != [] && addr[|addr| - 1] == ';' then addr[..|addr| - 1] else addr, ';');
    hide Split, Join;
  }

  /** Parsing inverts printing, with and without the final semicolon. */
  lemma PrintedParses(ws: seq<Written>, entries: seq<AddrEntry>)
    requires WritesAll(ws, entries)
    ensures Parses(Address(ws), entries) && Parses(Address(ws) + ";", entries)
  {
    var texts := Texts(ws);
    forall i | 0 <= i < |texts| ensures ReadsAs(texts[i], entries[i]) && ';' !in texts[i] && texts[i] != [] {
      EntryReads(ws[i], entries[i]);
    }
    hide ReadsAs, Segments, Join, Writes, EntryText;
    SegmentsOfJoin(texts);
  }

  lemma PairWritten(pair: string, value: (string, string))
    requires ReadPair(pair) == Ok(value) && ',' !in pair && ';' !in pair
    ensures WritesPair(Cut(pair, '=').value, value) && PairText(Cut(pair, '=').value) == pair
  {
    var (key, text) := Cut(pair, '=').value;
    CutParts(pair, '=');
    UnescapesIff(text, value.1);
  }

  lemma EntryWritten(s: string, e: AddrEntry) returns (w: Written)
    requires ReadsAs(s, e) && ';' !in s
    ensures w.pairs != [] && Writes(w, e) && EntryText(w) == s
  {
    var (name, list) := Cut(s, ':').value;
    CutParts(s, ':');
    var parts := Split(list, ',');
    SplitLacks(list, ',', ';');
    forall j | 0 <= j < |parts|
      ensures Cut(parts[j], '=').Some? && WritesPair(Cut(parts[j], '=').value, e.values[j])
      ensures PairText(Cut(parts[j], '=').value) == parts[j]
    {
      PairWritten(parts[j], e.values[j]);
    }
    w := Written(name, seq(|parts|, j requires 0 <= j < |parts| && Cut(parts[j], '=').Some? =>
      Cut(parts[j], '=').value));
    assert PairTexts(w.pairs) == parts;
    JoinSplit(list, ',');
  }

  lemma SegmentsWritten(segments: seq<string>, entries: seq<AddrEntry>) returns (ws: seq<Written>)
    requires |segments| == |entries| && forall k :: 0 <= k < |segments| ==> ReadsAs(segments[k], entries[k])
    requires forall k :: 0 <= k < |segments| ==> ';' !in segments[k]
    ensures |ws| == |entries| && forall k :: 0 <= k < |ws| ==> Writes(ws[k], entries[k])
    ensures (forall k :: 0 <= k < |ws| ==> ws[k].pairs != []) && Texts(ws) == segments
  {
    hide ReadsAs, EntryText, Writes;
    ws := [];
    for i := 0 to |segments|
      invariant |ws| == i
      invariant forall k :: 0 <= k < i ==> Writes(ws[k], entries[k])
      invariant forall k :: 0 <= k < i ==> ws[k].pairs != [] && EntryText(ws[k]) == segments[k]
    {
      var w := EntryWritten(segments[i], entries[i]);
      ws := ws + [w];
    }
  }

  /** Only printed addresses parse. */
  lemma ParsedIsPrinted(addr: string, entries: seq<AddrEntry>) returns (ws: seq<Written>)
    requires Parses(addr, entries)
    ensures WritesAll(ws, entries) && (addr == Address(ws) || addr == Address(ws) + ";")
  {
    JoinOfSegments(addr);
    hide ReadsAs, Segments, Join, Writes, EntryText;
    ws := SegmentsWritten(Segments(addr), entries);
  }
}
