/** The text form of a metadata file's location, `<table location>/metadata/<version>-<uuid>.metadata.json`. */
module MetadataLocations {
  import opened Prelude
  import opened Decimals

  datatype MetadataLocation<U> = MetadataLocation(tableLocation: string, version: i32, id: U)

  // ---- the string operations parsing is made of ----

  function SplitOnce(s: string, c: char): Option<(string, string)> {
    if s == "" then None
    else if s[0] == c then Some(("", s[1..]))
    else match SplitOnce(s[1..], c)
      case None => None
      case Some((a, b)) => Some(([s[0]] + a, b))
  }

  function RSplitOnce(s: string, c: char): Option<(string, string)> {
    if s == "" then None
    else if s[|s| - 1] == c then Some((s[..|s| - 1], ""))
    else match RSplitOnce(s[..|s| - 1], c)
      case None => None
      case Some((a, b)) => Some((a, b + [s[|s| - 1]]))
  }

  function StripSuffix(s: string, suffix: string): Option<string> {
    if |suffix| <= |s| && s[|s| - |suffix|..] == suffix then Some(s[..|s| - |suffix|]) else None
  }

  /** Splitting cuts at the first separator: the left part has none. */
  lemma {:induction false} SplitOnceFirst(s: string, c: char)
    ensures SplitOnce(s, c).None? <==> c !in s
    ensures forall a, b :: SplitOnce(s, c) == Some((a, b)) ==> s == a + [c] + b && c !in a
  {
    if s != "" && s[0] != c {
      SplitOnceFirst(s[1..], c);
    }
  }

  lemma {:induction false} SplitOnceAt(a: string, c: char, b: string)
    requires c !in a
    ensures SplitOnce(a + [c] + b, c) == Some((a, b))
  {
    var s := a + [c] + b;
    if a == "" {
      assert s[1..] == b;
    } else {
      SplitOnceAt(a[1..], c, b);
      assert s[1..] == a[1..] + [c] + b;
      assert a == [a[0]] + a[1..];
    }
  }

  lemma {:induction false} RSplitOnceAt(a: string, c: char, b: string)
    requires c !in b
    ensures RSplitOnce(a + [c] + b, c) == Some((a, b))
    decreases |b|
  {
    var s := a + [c] + b;
    if b == "" {
      assert s[..|s| - 1] == a;
    } else {
      RSplitOnceAt(a, c, b[..|b| - 1]);
      assert s[..|s| - 1] == a + [c] + b[..|b| - 1];
      assert b == b[..|b| - 1] + [b[|b| - 1]];
    }
  }

  // ---- printing and parsing ----

  /** `{:0>5}`: filled with zeros on the left, in front of any sign. */
  function Padded(version: i32): string {
    var text := Signed(version);
    Zeros(if |text| < 5 then 5 - |text| else 0) + text
  }

  function FileStem<U>(show: U -> string, version: i32, id: U): string { Padded(version) + "-" + show(id) }

  function Print<U>(show: U -> string, m: MetadataLocation<U>): string {
    m.tableLocation + "/metadata" + "/" + (FileStem(show, m.version, m.id) + ".metadata.json")
  }

  function ParseFileName<U>(read: string -> Option<U>, name: string): Result<(i32, U)> {
    match StripSuffix(name, ".metadata.json")
    case None => Err
    case Some(stem) =>
      match SplitOnce(stem, '-')
      case None => Err
      case Some((version, id)) =>
        match ParseI32(version)
        case None => Err
        case Some(v) => match read(id)
          case None => Err
          case Some(u) => Ok((v, u))
  }

  function ParseMetadataPathPrefix(path: string): Result<string> {
    match StripSuffix(path, "/metadata")
    case None => Err
    case Some(prefix) => Ok(prefix)
  }

  function Parse<U>(read: string -> Option<U>, s: string): Result<MetadataLocation<U>> {
    match RSplitOnce(s, '/')
    case None => Err
    case Some((path, name)) =>
      match ParseMetadataPathPrefix(path)
      case Err => Err
      case Ok(prefix) =>
        match ParseFileName(read, name)
        case Err => Err
        case Ok((version, id)) => Ok(MetadataLocation(prefix, version, id))
  }

  /** What is needed of UUID text: it is read back, and has no slash in it. */
  ghost predicate UuidText<U(!new)>(show: U -> string, read: string -> Option<U>) {
    forall u :: read(show(u)) == Some(u) && '/' !in show(u)
  }

  // ---- round trips ----

  lemma {:induction false} PaddedText(version: i32)
    ensures '/' !in Padded(version)
    ensures 0 <= version ==> AllDigits(Padded(version)) && ParseI32(Padded(version)) == Some(version)
    ensures version < 0 ==> '-' in Padded(version)
  {
    hide Value, Digits, Zeros;
    var text := Signed(version);
    var k := if |text| < 5 then 5 - |text| else 0;
    if 0 <= version {
      ValueOfDigits(version);
      ZerosDoNotCount(k, text);
      DigitsAreUnsigned(Padded(version));
    } else {
      assert Padded(version)[k] == '-';
    }
  }

  /** A version of at most five digits is printed in exactly five, a longer one in its own, without a leading zero. */
  lemma {:induction false} PrintedVersion(version: i32)
    requires 0 <= version
    ensures AllDigits(Padded(version)) && Value(Padded(version)) == version
    ensures version <= 99999 ==> |Padded(version)| == 5
    ensures version > 99999 ==> |Padded(version)| > 5 && Padded(version)[0] != '0'
  {
    hide Value, Digits, Zeros;
    var text := Signed(version);
    ValueOfDigits(version);
    ZerosDoNotCount(if |text| < 5 then 5 - |text| else 0, text);
    assert Pow10(5) == 100000;
    DigitsLength(version, 5);
  }

  /** The whole text: the table location, the directory, the version in digits, a dash, the id and the ending. */
  lemma {:induction false} PrintedText<U>(show: U -> string, m: MetadataLocation<U>) returns (version: string)
    requires 0 <= m.version
    ensures Print(show, m) == m.tableLocation + "/metadata/" + version + "-" + show(m.id) + ".metadata.json"
    ensures AllDigits(version) && Value(version) == m.version
    ensures m.version <= 99999 ==> |version| == 5
    ensures m.version > 99999 ==> |version| > 5 && version[0] != '0'
  {
    version := Padded(m.version);
    PrintedVersion(m.version);
    hide Padded, Value;
    assert "/metadata" + "/" == "/metadata/";
    assert m.tableLocation + "/metadata" + "/" == m.tableLocation + "/metadata/";
  }

  // ---- exactly which texts parse ----

  predicate HasForm(s: string, location: string, version: string, id: string) {
    s == location + "/metadata/" + version + "-" + id + ".metadata.json" && '-' !in version && '/' !in version + id
  }

  /**
   A text parses to a location exactly when it is the location's table, "/metadata/", a number, the first dash behind
   it, an id without a slash and ".metadata.json", with the number and the id being read as the location's.
   */
  lemma {:induction false} ParsesExactly<U(!new)>(read: string -> Option<U>, s: string, m: MetadataLocation<U>)
    ensures Parse(read, s) == Ok(m) <==>
            exists version, id :: HasForm(s, m.tableLocation, version, id) &&
                                  ParseI32(version) == Some(m.version) && read(id) == Some(m.id)
  {
    hide ParseI32, Parse, HasForm;
    if Parse(read, s) == Ok(m) { var version, id := ParsedForm(read, s, m); }
    if version, id :| HasForm(s, m.tableLocation, version, id) &&
                      ParseI32(version) == Some(m.version) && read(id) == Some(m.id) {
      FormParses(read, s, m, version, id);
    }
  }

  lemma {:induction false} ParsedForm<U(!new)>(read: string -> Option<U>, s: string, m: MetadataLocation<U>)
    returns (version: string, id: string)
    requires Parse(read, s) == Ok(m)
    ensures HasForm(s, m.tableLocation, version, id)
    ensures ParseI32(version) == Some(m.version) && read(id) == Some(m.id)
  {
    hide ParseI32, SplitOnce, RSplitOnce;
    var (path, name) := RSplitOnce(s, '/').value;
    RSplitOnceLast(s, '/');
    var stem := StripSuffix(name, ".metadata.json").value;
    SplitOnceFirst(stem, '-');
    version, id := SplitOnce(stem, '-').value.0, SplitOnce(stem, '-').value.1;
    assert name == version + "-" + id + ".metadata.json";
    SlashFree(version, id, name);
    assert path == m.tableLocation + "/metadata";
    Joined(s, m.tableLocation, version, id);
  }

  lemma {:induction false} SlashFree(version: string, id: string, name: string)
    requires name == version + "-" + id + ".metadata.json"
    ensures '/' in name <==> '/' in version + id
  {
  }

  lemma {:induction false} Joined(s: string, location: string, version: string, id: string)
    ensures (location + "/metadata") + ['/'] + (version + "-" + id + ".metadata.json") ==
            location + "/metadata/" + version + "-" + id + ".metadata.json"
  {
    assert "/metadata" + ['/'] == "/metadata/";
  }

  lemma {:induction false} FormParses<U(!new)>(
      read: string -> Option<U>, s: string, m: MetadataLocation<U>, version: string, id: string)
    requires HasForm(s, m.tableLocation, version, id)
    requires ParseI32(version) == Some(m.version) && read(id) == Some(m.id)
    ensures Parse(read, s) == Ok(m)
  {
    hide ParseI32, SplitOnce, RSplitOnce;
    var stem := version + ['-'] + id;
    var name := stem + ".metadata.json";
    assert stem == version + "-" + id;
    Joined(s, m.tableLocation, version, id);
    SlashFree(version, id, name);
    RSplitOnceAt(m.tableLocation + "/metadata", '/', name);
    SplitOnceAt(version, '-', id);
    assert StripSuffix(name, ".metadata.json") == Some(stem);
    assert StripSuffix(m.tableLocation + "/metadata", "/metadata") == Some(m.tableLocation);
  }

  lemma {:induction false} RSplitOnceLast(s: string, c: char)
    ensures forall a, b :: RSplitOnce(s, c) == Some((a, b)) ==> s == a + [c] + b && c !in b
    decreases |s|
  {
    if s != "" && s[|s| - 1] != c {
      RSplitOnceLast(s[..|s| - 1], c);
    }
  }

  /** Parsing what was printed comes down to parsing the file name. */
  lemma {:induction false} PrintedParts<U(!new)>(show: U -> string, read: string -> Option<U>, m: MetadataLocation<U>)
    requires UuidText(show, read)
    ensures var stem := FileStem(show, m.version, m.id);
            Parse(read, Print(show, m)) ==
            match ParseFileName(read, stem + ".metadata.json")
            case Err => Err
            case Ok((version, id)) => Ok(MetadataLocation(m.tableLocation, version, id))
    ensures StripSuffix(FileStem(show, m.version, m.id) + ".metadata.json", ".metadata.json") ==
            Some(FileStem(show, m.version, m.id))
  {
    var stem := FileStem(show, m.version, m.id);
    PaddedText(m.version);
    assert read(show(m.id)) == Some(m.id);
    assert '/' !in stem + ".metadata.json";
    RSplitOnceAt(m.tableLocation + "/metadata", '/', stem + ".metadata.json");
  }

  /** The version read from a file name never has a sign: the text stops at the first dash. */
  lemma {:induction false} ParsedVersion<U>(read: string -> Option<U>, name: string)
    ensures var r := ParseFileName(read, name); r.Ok? ==> 0 <= r.value.0
  {
    var stem := StripSuffix(name, ".metadata.json");
    if stem.Some? {
      SplitOnceFirst(stem.value, '-');
    }
  }

  /**
   Printing then parsing gives the location back exactly when its version is not negative, whatever the table
   location is: slashes, dashes and "/metadata/" in it are harmless.
   */
  lemma {:induction false} PrintThenParse<U(!new)>(show: U -> string, read: string -> Option<U>, m: MetadataLocation<U>)
    requires UuidText(show, read)
    ensures Parse(read, Print(show, m)) == Ok(m) <==> 0 <= m.version
  {
    PrintedParts(show, read, m);
    var stem := FileStem(show, m.version, m.id);
    if 0 <= m.version {
      PaddedText(m.version);
      SplitOnceAt(Padded(m.version), '-', show(m.id));
      assert read(show(m.id)) == Some(m.id);
    } else {
      ParsedVersion(read, stem + ".metadata.json");
    }
  }

  /** What was parsed is printed in a normal form that parses to the same location, so normalising is idempotent. */
  lemma {:induction false} ParseThenPrint<U(!new)>(show: U -> string, read: string -> Option<U>, s: string)
    requires UuidText(show, read)
    ensures var m := Parse(read, s);
            m.Ok? ==> 0 <= m.value.version && Parse(read, Print(show, m.value)) == m
  {
    var m := Parse(read, s);
    if m.Ok? {
      ParsedVersion(read, RSplitOnce(s, '/').value.1);
      PrintThenParse(show, read, m.value);
    }
  }
}
