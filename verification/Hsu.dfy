/** The setuid helper: its decimal parser, its configuration and its uid arithmetic (cmd/hsu). */
module Hsu {
  import opened Wrappers
  import opened Numerals
  import opened Text

  const WORD: nat := 0x1_0000_0000

  const USER_OFFSET: nat := 100000
  const RANGE_SIZE: nat := 10000
  const APP_START: nat := RANGE_SIZE
  const APP_END: nat := APP_START + RANGE_SIZE - 1
  const IDENTITY_END: nat := APP_END - APP_START
  const ISOLATED_START: nat := RANGE_SIZE * 9
  const ISOLATED_END: nat := ISOLATED_START + RANGE_SIZE - 1
  const USERID_END: nat := RANGE_SIZE - 1

  datatype ParseError = Empty | TooLong | BadCharacter(index: nat)

  predicate IsDigit(c: char) {
    '0' <= c <= '9'
  }

  /** What parseUint32Fast makes of a text: its decimal value in 32 bits, if it is 1 to 10 digits. */
  function Fast(s: string): Option<nat> {
    if 1 <= |s| <= 10 && IsNumeral(s, 10) then Some(Value(s, 10) % WORD) else None
  }

  lemma WrapStep(v: nat, d: nat)
    ensures ((v % WORD) * 10 % WORD + d) % WORD == (v * 10 + d) % WORD
  {
    var q := v / WORD;
    var r := (v % WORD) * 10;
    assert v * 10 + d == q * 10 * WORD + r + d;
    assert r + d == r / WORD * WORD + (r % WORD + d);
    Shift(r % WORD + d, q * 10 + r / WORD);
  }

  lemma {:induction false} Shift(x: nat, k: nat)
    ensures (x + k * WORD) % WORD == x % WORD
  {
  }

  method ParseUint32Fast(s: string) returns (r: Result<nat, ParseError>)
    ensures r.Ok? <==> Fast(s).Some?
    ensures r.Ok? ==> r.value == Fast(s).value
    ensures r == Err(Empty) <==> s == []
    ensures r == Err(TooLong) <==> |s| > 10
    ensures r.Err? && r.error.BadCharacter? ==>
      r.error.index < |s| && !IsDigit(s[r.error.index]) && forall k :: 0 <= k < r.error.index ==> IsDigit(s[k])
  {
    if |s| < 1 {
      return Err(Empty);
    }
    if |s| > 10 {
      return Err(TooLong);
    }
    var n: nat := 0;
    for i := 0 to |s|
      invariant forall k :: 0 <= k < i ==> IsDigit(s[k])
      invariant n < WORD && n == Value(s[..i], 10) % WORD
    {
      if !IsDigit(s[i]) {
        return Err(BadCharacter(i));
      }
      assert s[..i + 1][..i] == s[..i];
      WrapStep(Value(s[..i], 10), DigitValue(s[i]));
      n := (n * 10 % WORD + (s[i] - '0') as nat) % WORD;
    }
    assert s[..|s|] == s;
    assert IsNumeral(s, 10);
    return Ok(n);
  }

  /** The result is the number written exactly if the number fits. */
  lemma FastIsExactIff(s: string)
    requires 1 <= |s| <= 10 && IsNumeral(s, 10)
    ensures Fast(s) == Some(Value(s, 10)) <==> Value(s, 10) < WORD
  {
    assert Value(s, 10) % WORD < WORD;
  }

  lemma TenDigits()
    ensures Pow(10, 10) == 10000000000
  {
    assert Pow(10, 1) == 10 && Pow(10, 2) == 100 && Pow(10, 3) == 1000 && Pow(10, 4) == 10000;
    assert Pow(10, 5) == 100000 && Pow(10, 6) == 1000000 && Pow(10, 7) == 10000000;
    assert Pow(10, 8) == 100000000 && Pow(10, 9) == 1000000000;
  }

  lemma WordLength(n: nat)
    requires n < WORD
    ensures |Format(n, 10)| <= 10
  {
    hide Format;
    TenDigits();
    FormatLength(n, 10, 10);
  }

  /** Every 32-bit number is read back from its numeral. */
  lemma FastFormat(n: nat)
    requires n < WORD
    ensures Fast(Format(n, 10)) == Some(n)
  {
    hide Format, Value, IsNumeral;
    ValueFormat(n, 10);
    WordLength(n);
  }

  datatype ConfigError = InvalidEntry(line: nat) | InvalidParent(line: nat) | InvalidUserid(line: nat) | ReadError

  /** The parent uid of a line, if the line has one that parses and is not zero. */
  function ParentOf(line: string): Option<nat> {
    match Cut(line, ' ')
    case None => None
    case Some((parent, _)) => if Fast(parent).Some? && Fast(parent).value >= 1 then Fast(parent) else None
  }

  /** The userid of a line, if it has one in range. */
  function UseridOf(line: string): Option<nat> {
    match Cut(line, ' ')
    case None => None
    case Some((_, userid)) => if Fast(userid).Some? && Fast(userid).value <= USERID_END then Fast(userid) else None
  }

  /** Lines before k name other uids. */
  predicate OthersBefore(lines: seq<string>, puid: nat, k: nat) {
    k <= |lines| && forall j :: 0 <= j < k ==> ParentOf(lines[j]).Some? && ParentOf(lines[j]) != Some(puid)
  }

  /** Line k is the first for this uid, and the ones before it are in order. */
  predicate FirstFor(lines: seq<string>, puid: nat, k: nat) {
    k < |lines| && OthersBefore(lines, puid, k) && ParentOf(lines[k]) == Some(puid)
  }

  /** lines is what the scanner yields before it ends, with an error or without. */
  method ParseConfig(lines: seq<string>, readError: bool, puid: nat)
    returns (userid: nat, ok: bool, err: Option<ConfigError>)
    ensures ok <==> exists k: nat :: FirstFor(lines, puid, k) && UseridOf(lines[k]).Some?
    ensures ok ==> err.None?
    ensures forall k: nat :: ok && FirstFor(lines, puid, k) ==> UseridOf(lines[k]) == Some(userid)
    ensures !ok ==> userid == USERID_END + 1
    ensures !ok && err.None? <==> OthersBefore(lines, puid, |lines|) && !readError
    ensures err == Some(ReadError) <==> OthersBefore(lines, puid, |lines|) && readError
    ensures err.Some? && !err.value.ReadError? ==>
      var n := err.value.line;
      && 1 <= n <= |lines| && OthersBefore(lines, puid, n - 1)
      && match err.value
         case InvalidEntry(_) => ' ' !in lines[n - 1]
         case InvalidParent(_) => ' ' in lines[n - 1] && ParentOf(lines[n - 1]).None?
         case InvalidUserid(_) => FirstFor(lines, puid, n - 1) && UseridOf(lines[n - 1]).None?
         case ReadError => false
  {
    for line := 0 to |lines|
      invariant OthersBefore(lines, puid, line)
    {
      var lf := Cut(lines[line], ' ');
      match lf {
        case None =>
          NoCut(lines[line], ' ');
          return USERID_END + 1, false, Some(InvalidEntry(line + 1));
        case Some((parent, rest)) =>
          CutParts(lines[line], ' ');
          var puid0 := ParseUint32Fast(parent);
          if puid0.Err? || puid0.value < 1 {
            return USERID_END + 1, false, Some(InvalidParent(line + 1));
          }
          if puid0.value == puid {
            assert FirstFor(lines, puid, line);
            var v := ParseUint32Fast(rest);
            if v.Err? || v.value > USERID_END {
              return USERID_END + 1, false, Some(InvalidUserid(line + 1));
            }
            return v.value, true, None;
          }
      }
    }
    return USERID_END + 1, false, if readError then Some(ReadError) else None;
  }

  datatype Mapping = Mapping(parent: nat, userid: nat)

  function Line(m: Mapping): string {
    Format(m.parent, 10) + [' '] + Format(m.userid, 10)
  }

  lemma DigitsOnly(n: nat)
    ensures ' ' !in Format(n, 10) && '_' !in Format(n, 10)
  {
    ValueFormat(n, 10);
    var s := Format(n, 10);
    forall k | 0 <= k < |s| ensures s[k] != ' ' && s[k] != '_' {
      assert DigitValue(s[k]) < 10;
    }
  }

  /** A line printed from a mapping is read back as that mapping. */
  lemma LineReadsBack(m: Mapping)
    requires 1 <= m.parent < WORD && m.userid <= USERID_END
    ensures ParentOf(Line(m)) == Some(m.parent) && UseridOf(Line(m)) == Some(m.userid)
  {
    DigitsOnly(m.parent);
    CutFirst(Format(m.parent, 10), Format(m.userid, 10), ' ');
    FastFormat(m.parent);
    FastFormat(m.userid);
  }

  /** A file printed from mappings gives each uid the userid of its first mapping. */
  lemma FileReadsBack(table: seq<Mapping>, k: nat)
    requires forall j :: 0 <= j < |table| ==> 1 <= table[j].parent < WORD && table[j].userid <= USERID_END
    requires k < |table| && forall j :: 0 <= j < k ==> table[j].parent != table[k].parent
    ensures var lines := seq(|table|, j requires 0 <= j < |table| => Line(table[j]));
      FirstFor(lines, table[k].parent, k) && UseridOf(lines[k]) == Some(table[k].userid)
  {
    forall j | 0 <= j < |table| ensures ParentOf(Line(table[j])) == Some(table[j].parent) {
      LineReadsBack(table[j]);
    }
    LineReadsBack(table[k]);
  }

  /** A number past 32 bits is not refused: its line is one for the uid it wraps round to. */
  lemma WrappedParent(n: nat, rest: string)
    requires n < Pow(10, 10) && n % WORD >= 1
    ensures ParentOf(Format(n, 10) + [' '] + rest) == Some(n % WORD)
  {
    DigitsOnly(n);
    CutFirst(Format(n, 10), rest, ' ');
    ValueFormat(n, 10);
    FormatLength(n, 10, 10);
  }

  /** An entry written for another number authorises uid 1000. */
  lemma ForeignEntryMatches()
    ensures FirstFor([Format(WORD + 1000, 10) + [' '] + "7"], 1000, 0)
  {
    TenDigits();
    WrappedParent(WORD + 1000, "7");
  }

  /** toUser, in 32-bit arithmetic. */
  function ToUser(userid: nat, appid: nat): nat {
    (userid * USER_OFFSET % WORD + APP_START + appid) % WORD
  }

  /** The name of a uid. */
  function Name(uid: nat): string {
    var appid := uid % USER_OFFSET;
    var userid := uid / USER_OFFSET;
    if ISOLATED_START <= appid <= ISOLATED_END then
      "u" + Format(userid, 10) + ['_'] + ("i" + Format(appid - ISOLATED_START, 10))
    else if APP_START <= appid <= APP_END then
      "u" + Format(userid, 10) + ['_'] + ("a" + Format(appid - APP_START, 10))
    else Format(uid, 10)
  }

  lemma ToUserValue(userid: nat, identity: nat)
    requires userid <= USERID_END && identity <= IDENTITY_END
    ensures ToUser(userid, identity) == userid * USER_OFFSET + APP_START + identity
    ensures ToUser(userid, identity) / USER_OFFSET == userid
    ensures ToUser(userid, identity) % USER_OFFSET == APP_START + identity
  {
  }

  /** In range there is no overflow, and the name spells userid and identity. */
  lemma ToUserNamed(userid: nat, identity: nat)
    requires userid <= USERID_END && identity <= IDENTITY_END
    ensures ToUser(userid, identity) == userid * USER_OFFSET + APP_START + identity
    ensures ToUser(userid, identity) / USER_OFFSET == userid
    ensures ToUser(userid, identity) % USER_OFFSET - APP_START == identity
    ensures Name(ToUser(userid, identity)) == "u" + Format(userid, 10) + ['_'] + ("a" + Format(identity, 10))
  {
    ToUserValue(userid, identity);
    hide Format, ToUser;
  }

  lemma ToUserInjective(userid: nat, identity: nat, userid': nat, identity': nat)
    requires userid <= USERID_END && identity <= IDENTITY_END
    requires userid' <= USERID_END && identity' <= IDENTITY_END
    requires ToUser(userid, identity) == ToUser(userid', identity')
    ensures userid == userid' && identity == identity'
  {
    ToUserNamed(userid, identity);
    ToUserNamed(userid', identity');
  }

  const UID_START: nat := 10000
  const UID_LAST: nat := 999919999

  /** The final bounds check, which refuses the last uid of the range it names. */
  lemma BoundsCheckFiresIff(userid: nat, identity: nat)
    requires userid <= USERID_END && identity <= IDENTITY_END
    ensures var uid := ToUser(userid, identity);
      (uid < UID_START || uid >= UID_LAST) <==> userid == USERID_END && identity == IDENTITY_END
  {
    ToUserNamed(userid, identity);
  }

  lemma FormatInjective(x: nat, y: nat)
    requires Format(x, 10) == Format(y, 10)
    ensures x == y
  {
    ValueFormat(x, 10);
    ValueFormat(y, 10);
  }

  /** No two uids share a name. */
  lemma NameIsUnique(x: nat, y: nat)
    requires Name(x) == Name(y)
    ensures x == y
  {
    hide Name, Format, Cut;
    NameParts(x);
    NameParts(y);
    match Cut(Name(x), '_')
    case None => FormatInjective(x, y);
    case Some((u, rest)) =>
      assert u[1..] == Format(x / USER_OFFSET, 10) && u[1..] == Format(y / USER_OFFSET, 10);
      FormatInjective(x / USER_OFFSET, y / USER_OFFSET);
      var start := if rest[0] == 'i' then ISOLATED_START else APP_START;
      FormatInjective(x % USER_OFFSET - start, y % USER_OFFSET - start);
  }

  /** What can be read off a name. */
  lemma NameParts(x: nat)
    ensures var appid := x % USER_OFFSET;
      match Cut(Name(x), '_')
      case None => Name(x) == Format(x, 10)
      case Some((u, rest)) =>
        && u == "u" + Format(x / USER_OFFSET, 10)
        && rest != []
        && (rest[0] == 'i' ==> ISOLATED_START <= appid && rest[1..] == Format(appid - ISOLATED_START, 10))
        && (rest[0] != 'i' ==> rest[0] == 'a' && APP_START <= appid && rest[1..] == Format(appid - APP_START, 10))
  {
    DigitsOnly(x);
    DigitsOnly(x / USER_OFFSET);
    var appid := x % USER_OFFSET;
    var u := "u" + Format(x / USER_OFFSET, 10);
    if ISOLATED_START <= appid <= ISOLATED_END {
      CutFirst(u, "i" + Format(appid - ISOLATED_START, 10), '_');
    } else if APP_START <= appid <= APP_END {
      CutFirst(u, "a" + Format(appid - APP_START, 10), '_');
    } else if Cut(Name(x), '_').Some? {
      CutParts(Name(x), '_');
    }
  }
}
