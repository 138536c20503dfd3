/** Episode keys: four constructors and the parser that takes them apart again. */
module EpisodeKeys {
  import opened Decimals
  import opened Options

  datatype Role = Consume | Produce

  datatype Episode =
    | Threshold(node: string, payload: string)
    | Cell(process: string, payload: string, role: Role)
    | Changeover(station: string, id: int)
    | Maintain(group: string, binType: string)

  // ---- splitting at bars ----

  function FirstBar(s: string): (k: nat)
    ensures k <= |s|
    ensures forall i | 0 <= i < k :: s[i] != '|'
    ensures k < |s| ==> s[k] == '|'
  {
    if s == [] || s[0] == '|' then 0 else 1 + FirstBar(s[1..])
  }

  function Split(s: string): (parts: seq<string>)
    ensures parts != []
    decreases |s|
  {
    var k := FirstBar(s);
    if k == |s| then [s] else [s[..k]] + Split(s[k + 1..])
  }

  function Join(parts: seq<string>): string {
    if parts == [] then []
    else if |parts| == 1 then parts[0]
    else parts[0] + "|" + Join(parts[1..])
  }

  ghost predicate BarFree(s: string) {
    '|' !in s
  }

  lemma {:induction false} FirstBarOf(part: string, rest: string)
    requires BarFree(part)
    ensures FirstBar(part + "|" + rest) == |part|
  {
    var s := part + "|" + rest;
    assert s[|part|] == '|';
    forall i | 0 <= i < |part|
      ensures s[i] != '|'
    {
      assert part[i] in part;
    }
  }

  lemma {:induction false} SplitOfJoin(parts: seq<string>)
    requires parts != [] && forall p | p in parts :: BarFree(p)
    ensures Split(Join(parts)) == parts
  {
    assert parts[0] in parts;
    if |parts| == 1 {
      forall i | 0 <= i < |parts[0]|
        ensures parts[0][i] != '|'
      {
        assert parts[0][i] in parts[0];
      }
    } else {
      var rest := Join(parts[1..]);
      FirstBarOf(parts[0], rest);
      var s := Join(parts);
      assert s[..|parts[0]|] == parts[0] && s[|parts[0]| + 1..] == rest;
      SplitOfJoin(parts[1..]);
    }
  }

  lemma {:induction false} JoinOfSplit(s: string)
    ensures Join(Split(s)) == s
    ensures forall p | p in Split(s) :: BarFree(p)
    decreases |s|
  {
    var k := FirstBar(s);
    if k < |s| {
      JoinOfSplit(s[k + 1..]);
      var parts := Split(s);
      assert parts[1..] == Split(s[k + 1..]);
      assert s == s[..k] + "|" + s[k + 1..];
    }
  }

  // ---- the changeover id ----

  const MIN_ID := -0x8000_0000_0000_0000
  const MAX_ID := 0x7fff_ffff_ffff_ffff

  /** What the scanner skips in front of a number; a newline is not skipped but refused. */
  predicate IsSpace(c: char) {
    var n := c as int;
    || 0x09 <= n <= 0x0d || n == 0x20 || n == 0x85 || n == 0xa0 || n == 0x1680 || 0x2000 <= n <= 0x200a
    || n == 0x2028 || n == 0x2029 || n == 0x202f || n == 0x205f || n == 0x3000
  }

  function SkipSpace(s: string): (r: Option<string>) {
    if s == [] || !IsSpace(s[0]) then Some(s)
    else if s[0] == '\n' then None
    else SkipSpace(s[1..])
  }

  function DigitRun(s: string): (k: nat)
    ensures k <= |s| && AllDigits(s[..k])
    ensures k < |s| ==> !IsDigit(s[k])
  {
    if s == [] || !IsDigit(s[0]) then 0
    else
      var k := 1 + DigitRun(s[1..]);
      assert s[..k] == [s[0]] + s[1..][..k - 1];
      k
  }

  /** Scanning %d: spaces, a sign, at least one digit; whatever follows the digits is not looked at. */
  function ScanId(s: string): Option<int> {
    match SkipSpace(s)
    case None => None
    case Some(t) =>
      var signed := t != [] && (t[0] == '-' || t[0] == '+');
      var body := if signed then t[1..] else t;
      var k := DigitRun(body);
      if k == 0 then None
      else
        var n: int := Value(body[..k]);
        var id := if signed && t[0] == '-' then -n else n;
        if MIN_ID <= id <= MAX_ID then Some(id) else None
  }

  /** The text %d prints for some number. */
  ghost predicate PrintedId(s: string) {
    Canonical(s) || (s != [] && s[0] == '-' && Canonical(s[1..]) && s[1] != '0')
  }

  lemma {:induction false} AllDigitsRun(s: string)
    requires AllDigits(s)
    ensures DigitRun(s) == |s|
  {
    if s != [] {
      AllDigitsRun(s[1..]);
    }
  }

  /** What scanning makes of printed digits, bare or behind a minus. */
  lemma ScanDigits(digits: string)
    requires digits != [] && AllDigits(digits)
    ensures 0 - Value(digits) >= MIN_ID ==> ScanId("-" + digits) == Some(0 - Value(digits))
    ensures Value(digits) <= MAX_ID ==> ScanId(digits) == Some(Value(digits))
    ensures BarFree(digits) && BarFree("-" + digits)
  {
    hide Value;
    AllDigitsRun(digits);
    assert IsDigit(digits[0]);
    assert digits[..|digits|] == digits && ("-" + digits)[1..] == digits;
    assert forall k | 0 <= k < |digits| :: digits[k] != '|';
  }

  lemma ScanOfShow(i: int)
    requires MIN_ID <= i <= MAX_ID
    ensures ScanId(ShowInt(i)) == Some(i) && PrintedId(ShowInt(i))
    ensures BarFree(ShowInt(i))
  {
    hide ScanId, Show, Value;
    var n: nat := if i < 0 then -i else i;
    ValueOfShow(n);
    ScanDigits(Show(n));
    if i < 0 {
      assert ShowInt(i)[1..] == Show(n);
    }
  }

  lemma PrintedIdIsShown(s: string)
    requires PrintedId(s) && ScanId(s).Some?
    ensures ShowInt(ScanId(s).value) == s
  {
    if Canonical(s) {
      AllDigitsRun(s);
      assert s[..|s|] == s;
      assert IsDigit(s[0]);
      ShowOfValue(s);
    } else {
      var digits := s[1..];
      AllDigitsRun(digits);
      assert digits[..|digits|] == digits;
      ShowOfValue(digits);
      PositiveValue(digits);
      assert s == "-" + digits;
    }
  }

  lemma {:induction false} PositiveValue(s: string)
    requires Canonical(s) && s[0] != '0'
    ensures Value(s) > 0
  {
    if |s| == 1 {
      assert s[..0] == [];
    } else {
      PositiveValue(s[..|s| - 1]);
    }
  }

  // ---- keys ----

  function RoleText(r: Role): string {
    if r.Consume? then "consume" else "produce"
  }

  function RoleOf(s: string): Option<Role> {
    if s == "consume" then Some(Consume) else if s == "produce" then Some(Produce) else None
  }

  function Parts(e: Episode): (parts: seq<string>)
    ensures parts != []
  {
    match e
    case Threshold(node, payload) => ["thr", node, payload]
    case Cell(process, payload, role) => ["cell", process, payload, RoleText(role)]
    case Changeover(station, id) => ["co", station, ShowInt(id)]
    case Maintain(group, binType) => ["mnt", group, binType]
  }

  function Key(e: Episode): string {
    Join(Parts(e))
  }

  function ParseParts(parts: seq<string>): Option<Episode>
    requires parts != []
  {
    if parts[0] == "thr" then
      if |parts| != 3 || parts[1] == "" then None else Some(Threshold(parts[1], parts[2]))
    else if parts[0] == "cell" then
      if |parts| != 4 || parts[1] == "" || RoleOf(parts[3]).None? then None
      else Some(Cell(parts[1], parts[2], RoleOf(parts[3]).value))
    else if parts[0] == "mnt" then
      if |parts| != 3 || parts[1] == "" || parts[2] == "" then None else Some(Maintain(parts[1], parts[2]))
    else if parts[0] == "co" then
      if |parts| != 3 || ScanId(parts[2]).None? then None else Some(Changeover(parts[1], ScanId(parts[2]).value))
    else None
  }

  function Parse(key: string): Option<Episode> {
    ParseParts(Split(key))
  }

  /** Components free of the separator, the identifying ones not blank, the id a 64-bit integer. */
  ghost predicate Valid(e: Episode) {
    match e
    case Threshold(node, payload) => BarFree(node) && BarFree(payload) && node != ""
    case Cell(process, payload, _) => BarFree(process) && BarFree(payload) && process != ""
    case Changeover(station, id) => BarFree(station) && MIN_ID <= id <= MAX_ID
    case Maintain(group, binType) => BarFree(group) && BarFree(binType) && group != "" && binType != ""
  }

  lemma PartsAreBarFree(e: Episode)
    requires Valid(e)
    ensures forall p | p in Parts(e) :: BarFree(p)
  {
    if e.Changeover? {
      ScanOfShow(e.id);
    }
  }

  /** Parsing any constructed key gives its components back. */
  lemma ParseOfKey(e: Episode)
    requires Valid(e)
    ensures Parse(Key(e)) == Some(e)
  {
    PartsAreBarFree(e);
    SplitOfJoin(Parts(e));
    hide Split, Join, ScanId, ShowInt;
    if e.Changeover? {
      ScanOfShow(e.id);
    }
  }

  /** Keys of different kinds or different components never collide. */
  lemma KeysDoNotCollide(e: Episode, f: Episode)
    requires Valid(e) && Valid(f) && Key(e) == Key(f)
    ensures e == f
  {
    ParseOfKey(e);
    ParseOfKey(f);
  }

  /** What the parser accepts is a valid episode. */
  lemma AcceptedIsValid(key: string)
    requires Parse(key).Some?
    ensures Valid(Parse(key).value)
  {
    JoinOfSplit(key);
    var parts := Split(key);
    assert parts[1] in parts && parts[2] in parts;
  }

  /** An accepted key is rebuilt byte for byte from its parse, unless it is a changeover key whose id text
      is not the way %d prints a number: a leading zero, plus or space, or something after the digits. */
  lemma RebuiltIff(key: string)
    requires Parse(key).Some?
    ensures Key(Parse(key).value) == key <==> (Parse(key).value.Changeover? ==> PrintedId(Split(key)[2]))
  {
    JoinOfSplit(key);
    var parts := Split(key);
    var e := Parse(key).value;
    AcceptedIsValid(key);
    PartsAreBarFree(e);
    if e.Changeover? {
      ScanOfShow(e.id);
      if PrintedId(parts[2]) {
        PrintedIdIsShown(parts[2]);
        assert Parts(e) == parts;
      }
      if Key(e) == key {
        SplitOfJoin(Parts(e));
      }
    } else {
      assert Parts(e) == parts;
    }
  }

  lemma {:induction false} SpacesAreSkipped(spaces: string, t: string)
    requires forall i | 0 <= i < |spaces| :: IsSpace(spaces[i]) && spaces[i] != '\n'
    requires t != [] && !IsSpace(t[0])
    ensures SkipSpace(spaces + t) == Some(t)
  {
    if spaces == [] {
      assert spaces + t == t;
    } else {
      assert (spaces + t)[1..] == spaces[1..] + t;
      SpacesAreSkipped(spaces[1..], t);
    }
  }

  lemma {:induction false} DigitRunThen(digits: string, rest: string)
    requires AllDigits(digits) && (rest == [] || !IsDigit(rest[0]))
    ensures DigitRun(digits + rest) == |digits|
  {
    if digits == [] {
      assert digits + rest == rest;
    } else {
      assert (digits + rest)[1..] == digits[1..] + rest;
      DigitRunThen(digits[1..], rest);
    }
  }

  /** Blanks in front and anything behind the digits are read over: every such text is the same id. */
  lemma PaddingIsReadOver(spaces: string, digits: string, rest: string)
    requires forall i | 0 <= i < |spaces| :: IsSpace(spaces[i]) && spaces[i] != '\n'
    requires digits != [] && AllDigits(digits) && (rest == [] || !IsDigit(rest[0])) && Value(digits) <= MAX_ID
    ensures ScanId(spaces + (digits + rest)) == Some(Value(digits))
  {
    var t := digits + rest;
    assert t[0] == digits[0] && IsDigit(t[0]);
    SpacesAreSkipped(spaces, t);
    DigitRunThen(digits, rest);
    assert t[..|digits|] == digits;
  }

  /** The ends of the two ranges of blanks: tab and carriage return, U+2000 and U+200A, and nothing next to them. */
  lemma BlankRanges()
    ensures IsSpace(0x09 as char) && IsSpace(0x0d as char) && IsSpace(0x2000 as char) && IsSpace(0x200a as char)
    ensures !IsSpace(0x08 as char) && !IsSpace(0x0e as char) && !IsSpace(0x1fff as char) && !IsSpace(0x200b as char)
  {
  }

  /** For instance a plus sign is read and not written back. */
  lemma PlusSignIsLost(station: string, n: nat)
    requires BarFree(station) && n <= MAX_ID
    ensures
      var key := Join(["co", station, "+" + Show(n)]);
      Parse(key) == Some(Changeover(station, n)) && Key(Changeover(station, n)) != key
  {
    var text := "+" + Show(n);
    var parts := ["co", station, text];
    assert forall k | 0 <= k < |text| :: text[k] != '|';
    SplitOfJoin(parts);
    PlusIsScanned(n);
    RebuiltIff(Join(parts));
  }

  lemma PlusIsScanned(n: nat)
    requires n <= MAX_ID
    ensures ScanId("+" + Show(n)) == Some(n) && !PrintedId("+" + Show(n))
  {
    var digits := Show(n);
    ValueOfShow(n);
    AllDigitsRun(digits);
    hide Show, Value, DigitRun, AllDigits;
    PlusInFront(digits);
    assert ("+" + digits)[0] == '+';
  }

  lemma PlusInFront(digits: string)
    requires digits != [] && DigitRun(digits) == |digits| && Value(digits) <= MAX_ID
    ensures ScanId("+" + digits) == Some(Value(digits))
  {
    hide Value, DigitRun;
    var text := "+" + digits;
    assert text[0] == '+' && text[1..] == digits && digits[..|digits|] == digits;
    assert SkipSpace(text) == Some(text);
  }
}
