/** Reading mount tables (container/vfs/mountinfo.go, container/vfs/mangle.go). */
module MountInfo {
  import opened Wrappers
  import opened MountEntry
  import opened Numerals
  import opened Text

  datatype ParseError = Fields | Empty | Devno | Separator | Number | ScanFailed

  predicate Octal(c: char) {
    '0' <= c <= '7'
  }

  /** A backslash and three octal digits, for a byte below 128. */
  predicate IsMangled(s: string) {
    |s| > 3 && s[0] == '\\' && (s[1] == '0' || s[1] == '1') && Octal(s[2]) && Octal(s[3])
  }

  function OctalValue(a: char, b: char, c: char): (r: char)
    requires (a == '0' || a == '1') && Octal(b) && Octal(c)
    ensures r < 128 as char
  {
    ((a - '0') as nat * 64 + (b - '0') as nat * 8 + (c - '0') as nat) as char
  }

  function Unmangled(s: string): string {
    if s == [] then []
    else if IsMangled(s) then [OctalValue(s[1], s[2], s[3])] + Unmangled(s[4..])
    else [s[0]] + Unmangled(s[1..])
  }

  lemma {:induction false} NothingToUnmangle(s: string)
    requires '\\' !in s
    ensures Unmangled(s) == s
  {
    if s != [] {
      NothingToUnmangle(s[1..]);
      assert s == [s[0]] + s[1..];
    }
  }

  /** How far one character of the result takes the reading. */
  function Next(s: string, i: nat): (r: (char, nat))
    requires i < |s|
    ensures i < r.1 <= |s|
  {
    if IsMangled(s[i..]) then (OctalValue(s[i + 1], s[i + 2], s[i + 3]), i + 4) else (s[i], i + 1)
  }

  lemma UnmangleNext(s: string, i: nat)
    requires i < |s|
    ensures Unmangled(s[i..]) == [Next(s, i).0] + Unmangled(s[Next(s, i).1..])
  {
    var rest := s[i..];
    if IsMangled(rest) {
      assert rest[4..] == s[i + 4..];
    } else {
      assert rest[1..] == s[i + 1..];
    }
  }

  /** The character the reading makes of what is at i, and how much more than one it takes. */
  method ReadAt(s: string, i: nat) returns (c: char, skip: nat)
    requires i < |s|
    ensures (c, i + 1 + skip) == Next(s, i)
  {
    c, skip := s[i], 0;
    if c == '\\' && |s| > i + 3 && (s[i + 1] == '0' || s[i + 1] == '1') && Octal(s[i + 2]) && Octal(s[i + 3]) {
      c, skip := OctalValue(s[i + 1], s[i + 2], s[i + 3]), 3;
    }
  }

  /** The write index j never passes the read index i. */
  method Unmangle(s: string) returns (r: string)
    ensures r == Unmangled(s)
  {
    if '\\' !in s {
      NothingToUnmangle(s);
      return s;
    }
    var v := new char[|s|];
    var i, j := 0, 0;
    ghost var before := "";
    UnmangleEnds(s);
    hide *;
    while i < |s|
      invariant j <= i <= |s| && v[..j] == before
      invariant before + Unmangled(s[i..]) == Unmangled(s)
    {
      UnmangleNext(s, i);
      var c, skip := ReadAt(s, i);
      v[j] := c;
      i, j := i + 1 + skip, j + 1;
      Shift(before, c, Unmangled(s[i..]));
      before := before + [c];
      assert v[..j] == before;
    }
    return v[..j];
  }

  lemma Shift(a: string, c: char, b: string)
    ensures a + ([c] + b) == a + [c] + b
  {
  }

  lemma UnmangleEnds(s: string)
    ensures "" + Unmangled(s[0..]) == Unmangled(s) && Unmangled(s[|s|..]) == ""
  {
    assert s[0..] == s && s[|s|..] == [];
  }

  function Digit(d: nat): char
    requires d < 8
  {
    '0' + d as char
  }

  /** Three octal digits for the characters of a set, as the kernel writes them. */
  function Mangle(s: string, escape: set<char>): string {
    if s == [] then []
    else
      var n := s[0] as nat;
      (if s[0] in escape && n < 256 then ['\\', Digit(n / 64 % 8), Digit(n / 8 % 8), Digit(n % 8)] else [s[0]])
      + Mangle(s[1..], escape)
  }

  /** Sets whose characters Unmangle can read back. */
  predicate Readable(escape: set<char>) {
    forall c :: c in escape ==> c < 128 as char
  }

  lemma OctalReadsBack(n: nat)
    requires n < 128
    ensures n / 64 % 8 == n / 64 < 2
    ensures OctalValue(Digit(n / 64), Digit(n / 8 % 8), Digit(n % 8)) == n as char
  {
    assert n / 64 * 64 + n / 8 % 8 * 8 + n % 8 == n;
  }

  lemma {:induction false} UnmangleMangle(s: string, escape: set<char>)
    requires '\\' in escape && Readable(escape)
    ensures Unmangled(Mangle(s, escape)) == s
  {
    if s != [] {
      UnmangleMangle(s[1..], escape);
      var m := Mangle(s, escape);
      if s[0] in escape {
        OctalReadsBack(s[0] as nat);
        assert m[4..] == Mangle(s[1..], escape);
      } else {
        assert m[1..] == Mangle(s[1..], escape);
      }
      assert s == [s[0]] + s[1..];
    }
  }

  /** Among the sets of bytes that hold the backslash, those below 128 are the ones that are undone. */
  lemma UnmangleInvertsIff(escape: set<char>)
    requires '\\' in escape && forall c :: c in escape ==> c < 256 as char
    ensures (forall s :: Unmangled(Mangle(s, escape)) == s) <==> Readable(escape)
  {
    if Readable(escape) {
      forall s ensures Unmangled(Mangle(s, escape)) == s {
        UnmangleMangle(s, escape);
      }
    } else {
      var c :| c in escape && !(c < 128 as char);
      var n := c as nat;
      assert n / 64 % 8 >= 2;
      var m := Mangle([c], escape);
      assert [c][1..] == [] && Mangle([], escape) == [];
      assert m == ['\\', Digit(n / 64 % 8), Digit(n / 8 % 8), Digit(n % 8)];
      assert Unmangled(m)[0] == '\\';
      assert !(Unmangled(Mangle([c], escape)) == [c]);
      assert !Readable(escape);
    }
  }

  const INT_MIN: int := -0x8000_0000_0000_0000
  const INT_MAX: int := 0x7fff_ffff_ffff_ffff

  predicate IsInt(n: int) {
    INT_MIN <= n <= INT_MAX
  }

  /** The number a sign and digits write, if it fits. */
  function SignedValue(negative: bool, digits: string): Option<int> {
    var n: int := if negative then -(Value(digits, 10) as int) else Value(digits, 10);
    if digits != [] && IsNumeral(digits, 10) && IsInt(n) then Some(n) else None
  }

  predicate HasSign(s: string) {
    s != [] && (s[0] == '-' || s[0] == '+')
  }

  function Atoi(s: string): Option<int> {
    if HasSign(s) then SignedValue(s[0] == '-', s[1..]) else SignedValue(false, s)
  }

  function Itoa(n: int): string {
    if n < 0 then "-" + Format(-n, 10) else Format(n, 10)
  }

  lemma NumeralCharacters(s: string)
    requires IsNumeral(s, 10)
    ensures ' ' !in s && ':' !in s && '-' !in s && '+' !in s
  {
    forall k | 0 <= k < |s| ensures s[k] != ' ' && s[k] != ':' && s[k] != '-' && s[k] != '+' {
      assert DigitValue(s[k]) < 10;
    }
  }

  lemma AtoiItoa(n: int)
    requires IsInt(n)
    ensures Atoi(Itoa(n)) == Some(n) && ' ' !in Itoa(n) && ':' !in Itoa(n) && Itoa(n) != []
  {
    var m := if n < 0 then -n else n;
    ValueFormat(m, 10);
    NumeralCharacters(Format(m, 10));
    assert n < 0 ==> Itoa(n)[1..] == Format(m, 10);
  }

  /** The digits at the start of s, which end a %d verb. */
  function DigitRun(s: string): (r: string)
    ensures r <= s && IsNumeral(r, 10)
  {
    if s != [] && DigitValue(s[0]) < 10 then [s[0]] + DigitRun(s[1..]) else []
  }

  /** A %d verb at the start of s: its number and how much it takes. */
  function ScanInt(s: string): Option<(int, nat)> {
    var skip := if HasSign(s) then 1 else 0;
    var digits := DigitRun(s[skip..]);
    match SignedValue(HasSign(s) && s[0] == '-', digits)
    case None => None
    case Some(n) => Some((n, skip + |digits|))
  }

  /** Sscanf with %d:%d; what follows the second number is ignored. */
  function ScanDevno(s: string): Option<(int, int)> {
    match ScanInt(s)
    case None => None
    case Some((major, n)) =>
      if n < |s| && s[n] == ':' then
        match ScanInt(s[n + 1..])
        case None => None
        case Some((minor, _)) => Some((major, minor))
      else None
  }

  lemma {:induction false} DigitRunEnds(digits: string, t: string)
    requires IsNumeral(digits, 10) && (t != [] ==> DigitValue(t[0]) >= 10)
    ensures DigitRun(digits + t) == digits
    decreases |digits|
  {
    if digits == [] {
      assert digits + t == t;
    } else {
      DigitRunEnds(digits[1..], t);
      assert (digits + t)[1..] == digits[1..] + t;
      assert digits == [digits[0]] + digits[1..];
    }
  }

  /** Reading stops where the digits do. */
  lemma ScanDigits(sign: string, digits: string, t: string)
    requires sign == "" || sign == "-"
    requires digits != [] && digits[0] != '-' && digits[0] != '+' && DigitRun(digits + t) == digits
    ensures var s := sign + digits + t; var v := SignedValue(sign == "-", digits);
      ScanInt(s) == if v.None? then None else Some((v.value, |sign| + |digits|))
  {
    hide SignedValue, DigitRun;
    var s := sign + digits + t;
    assert s[|sign|..] == digits + t;
    if sign == "" {
      assert s[0] == digits[0] && !HasSign(s);
    } else {
      assert HasSign(s) && s[0] == '-';
    }
  }

  /** The sign and the digits Itoa prints. */
  lemma ItoaParts(n: int) returns (sign: string, digits: string)
    requires IsInt(n)
    ensures sign == "" || sign == "-"
    ensures Itoa(n) == sign + digits && SignedValue(sign == "-", digits) == Some(n)
    ensures IsNumeral(digits, 10) && digits != [] && '-' !in digits && '+' !in digits
  {
    hide Format, Value, IsNumeral;
    sign, digits := if n < 0 then "-" else "", Format(if n < 0 then -n else n, 10);
    ValueFormat(if n < 0 then -n else n, 10);
    NumeralCharacters(digits);
  }

  lemma ScanItoa(n: int, t: string)
    requires IsInt(n) && (t != [] ==> t[0] == ':')
    ensures ScanInt(Itoa(n) + t) == Some((n, |Itoa(n)|))
  {
    hide ScanInt, Itoa, SignedValue, IsNumeral, DigitRun;
    var sign, digits := ItoaParts(n);
    assert digits[0] in digits;
    DigitRunEnds(digits, t);
    ScanDigits(sign, digits, t);
  }

  lemma DevnoReadsBack(major: int, minor: int)
    requires IsInt(major) && IsInt(minor)
    ensures ScanDevno(Itoa(major) + [':'] + Itoa(minor)) == Some((major, minor))
  {
    hide Itoa, ScanInt;
    var t := [':'] + Itoa(minor);
    var s := Itoa(major) + [':'] + Itoa(minor);
    assert s == Itoa(major) + t;
    ScanItoa(major, t);
    assert s[|Itoa(major)| + 1..] == Itoa(minor);
    ScanItoa(minor, []);
    assert Itoa(minor) + [] == Itoa(minor);
  }

  function ParseMountInfoLine(s: string): (r: Result<MountInfoEntry, ParseError>)
    ensures r.Err? ==> r.error != ScanFailed
  {
    ParseFields(Split(s, ' '))
  }

  function ParseFields(f: seq<string>): Result<MountInfoEntry, ParseError> {
    if |f| < 10 then Err(Fields)
    else if Atoi(f[0]).None? || Atoi(f[1]).None? then Err(Number)
    else if ScanDevno(f[2]).None? then Err(Devno)
    else if Unmangled(f[3]) == "" || Unmangled(f[4]) == "" || Unmangled(f[5]) == "" then Err(Empty)
    else
      var i := |f| - 4;
      if f[i] != "-" then Err(Separator)
      else if Unmangled(f[i + 1]) == "" then Err(Empty)
      else
        var devno := ScanDevno(f[2]).value;
        Ok(MountInfoEntry(Atoi(f[0]).value, Atoi(f[1]).value, devno.0, devno.1,
                          Unmangled(f[3]), Unmangled(f[4]), Unmangled(f[5]), f[6..i],
                          Unmangled(f[i + 1]), Unmangled(f[i + 2]), Unmangled(f[i + 3])))
  }

  /** The fields of a line, before they are joined with spaces; all strings but the optional fields are escaped. */
  function FieldsOf(e: MountInfoEntry, escape: set<char>): seq<string> {
    [Itoa(e.id), Itoa(e.parent), Itoa(e.major) + [':'] + Itoa(e.minor),
     Mangle(e.root, escape), Mangle(e.target, escape), Mangle(e.vfsOptstr, escape)]
    + e.optFields
    + ["-", Mangle(e.fsType, escape), Mangle(e.source, escape), Mangle(e.fsOptstr, escape)]
  }

  /** MountInfoEntry.String. */
  function String(e: MountInfoEntry): string {
    Join(FieldsOf(e, {}), ' ')
  }

  /** The line proc_pid_mountinfo(5) shows, with some characters of the strings escaped. */
  function KernelLine(e: MountInfoEntry, escape: set<char>): string {
    Join(FieldsOf(e, escape), ' ')
  }

  /** What every line needs: 64-bit numbers, required strings, optional fields of one word. */
  predicate Representable(e: MountInfoEntry) {
    && IsInt(e.id) && IsInt(e.parent) && IsInt(e.major) && IsInt(e.minor)
    && e.root != [] && e.target != [] && e.vfsOptstr != [] && e.fsType != []
    && forall k :: 0 <= k < |e.optFields| ==> ' ' !in e.optFields[k]
  }

  lemma {:induction false} MangleLacks(s: string, escape: set<char>)
    requires ' ' in escape
    ensures ' ' !in Mangle(s, escape)
  {
    if s != [] {
      MangleLacks(s[1..], escape);
    }
  }

  lemma {:induction false} MangleKeeps(s: string, escape: set<char>)
    requires forall c :: c in s ==> c !in escape
    ensures Mangle(s, escape) == s
  {
    if s != [] {
      MangleKeeps(s[1..], escape);
      assert s == [s[0]] + s[1..];
    }
  }

  /** Texts that stand for the strings of an entry in one word each. */
  predicate Stands(text: string, value: string) {
    ' ' !in text && Unmangled(text) == value
  }

  lemma FieldsParse(e: MountInfoEntry, f: seq<string>)
    requires Representable(e) && |f| == 10 + |e.optFields|
    requires f[0] == Itoa(e.id) && f[1] == Itoa(e.parent) && f[2] == Itoa(e.major) + [':'] + Itoa(e.minor)
    requires Stands(f[3], e.root) && Stands(f[4], e.target) && Stands(f[5], e.vfsOptstr)
    requires f[6..|f| - 4] == e.optFields && f[|f| - 4] == "-"
    requires Stands(f[|f| - 3], e.fsType) && Stands(f[|f| - 2], e.source) && Stands(f[|f| - 1], e.fsOptstr)
    ensures ParseFields(f) == Ok(e)
    ensures forall k :: 0 <= k < |f| ==> ' ' !in f[k]
  {
    hide Itoa, Atoi, Unmangled, ScanDevno;
    AtoiItoa(e.id);
    AtoiItoa(e.parent);
    AtoiItoa(e.major);
    AtoiItoa(e.minor);
    DevnoReadsBack(e.major, e.minor);
    forall k | 0 <= k < |f| ensures ' ' !in f[k] {
      if 6 <= k < |f| - 4 {
        assert f[k] == e.optFields[k - 6];
      }
    }
  }

  /** A line parses when every string in it reads back as the field. */
  lemma LineParses(e: MountInfoEntry, escape: set<char>)
    requires Representable(e)
    requires Stands(Mangle(e.root, escape), e.root) && Stands(Mangle(e.target, escape), e.target)
    requires Stands(Mangle(e.vfsOptstr, escape), e.vfsOptstr) && Stands(Mangle(e.fsType, escape), e.fsType)
    requires Stands(Mangle(e.source, escape), e.source) && Stands(Mangle(e.fsOptstr, escape), e.fsOptstr)
    ensures ParseMountInfoLine(KernelLine(e, escape)) == Ok(e)
  {
    var f := FieldsOf(e, escape);
    assert f[6..|f| - 4] == e.optFields;
    hide ParseFields, Mangle, Stands, Itoa;
    FieldsParse(e, f);
    hide Representable;
    SplitJoin(f, ' ');
  }

  /** Parsing a line of the kernel recovers every field, whatever characters the strings hold. */
  lemma KernelLineParses(e: MountInfoEntry, escape: set<char>)
    requires Representable(e)
    requires ' ' in escape && '\\' in escape && Readable(escape)
    ensures ParseMountInfoLine(KernelLine(e, escape)) == Ok(e)
  {
    forall s ensures Stands(Mangle(s, escape), s) {
      UnmangleMangle(s, escape);
      MangleLacks(s, escape);
    }
    hide *;
    LineParses(e, escape);
  }

  predicate PlainWord(s: string) {
    ' ' !in s && '\\' !in s
  }

  /** Parsing inverts String for entries without spaces and backslashes, with any optional fields. */
  lemma StringParses(e: MountInfoEntry)
    requires Representable(e)
    requires PlainWord(e.root) && PlainWord(e.target) && PlainWord(e.vfsOptstr)
    requires PlainWord(e.fsType) && PlainWord(e.source) && PlainWord(e.fsOptstr)
    ensures ParseMountInfoLine(String(e)) == Ok(e)
  {
    forall s | PlainWord(s) ensures Stands(Mangle(s, {}), s) {
      MangleKeeps(s, {});
      NothingToUnmangle(s);
    }
    assert String(e) == KernelLine(e, {});
    hide *;
    LineParses(e, {});
  }

  /** The decoder: the entries read, and the failure that ended the reading. */
  class MountInfoDecoder {
    var entries: seq<MountInfoEntry>
    var parseErr: Option<ParseError>
    var curLine: nat
    var complete: bool

    constructor ()
      ensures entries == [] && parseErr.None? && curLine == 0 && !complete
    {
      entries, parseErr, curLine, complete := [], None, 0, false;
    }

    /** One call of scan; line is what the scanner yields next, if anything. */
    method Scan(line: Option<string>) returns (more: bool)
      modifies this
      ensures more <==> !old(complete) && line.Some? && ParseMountInfoLine(line.value).Ok?
      ensures more ==>
        && entries == old(entries) + [ParseMountInfoLine(line.value).value]
        && curLine == old(curLine) + 1 && !complete && parseErr == old(parseErr)
      ensures !more ==> complete && entries == old(entries) && curLine == old(curLine)
      ensures !more && !old(complete) && line.Some? ==> parseErr == Some(ParseMountInfoLine(line.value).error)
      ensures old(complete) || line.None? ==> parseErr == old(parseErr)
    {
      if complete {
        return false;
      }
      if line.None? {
        complete := true;
        return false;
      }
      match ParseMountInfoLine(line.value)
      case Err(e) =>
        parseErr, complete := Some(e), true;
        return false;
      case Ok(entry) =>
        entries := entries + [entry];
        curLine := curLine + 1;
        return true;
    }

    /** Decode on a fresh decoder. A read failure, if there is one, is known to the scanner from the
        time it yields the line with the number failsAt, or else when it has no more lines; then it
        comes before a line that does not parse. The number returned is that of the lines read. */
    method Decode(lines: seq<string>, failsAt: Option<nat>)
      returns (r: Result<seq<MountInfoEntry>, (nat, ParseError)>)
      requires entries == [] && parseErr.None? && curLine == 0 && !complete
      modifies this
      ensures r.Ok? ==> |r.value| == |lines| && failsAt.None?
      ensures r.Ok? ==> forall k :: 0 <= k < |lines| ==> ParseMountInfoLine(lines[k]) == Ok(r.value[k])
      ensures r.Err? ==>
        && forall k :: 0 <= k < r.error.0 <= |lines| ==> ParseMountInfoLine(lines[k]).Ok?
      ensures r.Err? ==>
        var (n, e) := r.error;
        && (n < |lines| ==> ParseMountInfoLine(lines[n]).Err?)
        && if failsAt.Some? && (failsAt.value <= n || n == |lines|) then e == ScanFailed
           else n < |lines| && ParseMountInfoLine(lines[n]) == Err(e)
    {
      hide ParseMountInfoLine;
      var more := true;
      while more
        invariant curLine == |entries| <= |lines|
        invariant forall k :: 0 <= k < curLine ==> ParseMountInfoLine(lines[k]) == Ok(entries[k])
        invariant more ==> !complete && parseErr.None?
        invariant !more && parseErr.None? ==> curLine == |lines|
        invariant !more && parseErr.Some? ==>
          curLine < |lines| && ParseMountInfoLine(lines[curLine]) == Err(parseErr.value)
        decreases |lines| - curLine, more
      {
        more := Scan(if curLine < |lines| then Some(lines[curLine]) else None);
      }
      if failsAt.Some? && (failsAt.value <= curLine || parseErr.None?) {
        return Err((curLine, ScanFailed));
      }
      return if parseErr.Some? then Err((curLine, parseErr.value)) else Ok(entries);
    }
  }
}
