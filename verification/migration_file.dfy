/**
 * The migration filename grammar and the migration descriptor built from one file
 * (`MIGRATION_FILE_RE` and `Migration.from_file`), and the file names `migrate add`
 * generates.
 *
 * The source applies the pattern
 *     (?P<version>\d+)_(?P<description>.+?)(?:\.(?P<migration_type>down|up))?\.sql
 * with `re.match`, which anchors the match at the start of the name but NOT at its end:
 * a name is accepted as soon as some prefix of it has the shape above, and the
 * description is the SHORTEST one (lazy `.+?`) that lets the rest match. `MatchName`
 * models exactly that, `.` excluding the newline character as in Python.
 */
module MigrationFile {
  import opened Wrappers
  import Decimal

  type byte = b: int | 0 <= b < 256

  datatype Direction = Up | Down

  /** One parsed migration file (the `Migration` dataclass). */
  datatype Migration = Migration(
    version: nat,
    description: string,
    direction: Direction,
    sql: string,
    checksum: seq<byte>,
    noTx: bool)

  /**
   * The two library calls `from_file` makes on the file's bytes: the SHA-384 digest
   * and the utf-8 decoder (which may reject the bytes). Both are left uninterpreted.
   */
  datatype FileOracle = FileOracle(digest: seq<byte> -> seq<byte>, decode: seq<byte> -> Option<string>)

  /**
   * Errors `from_file` raises. Both are `ValueError`s in Python (`UnicodeDecodeError`
   * is a subclass), so callers treat them alike.
   */
  datatype FileError = InvalidName(name: string) | NotUtf8(name: string)

  /** Where the regex found the parts of a name: the version is `name[..digits]`,
      the description `name[digits + 1 .. digits + 1 + descLen]`. */
  datatype NameMatch = NameMatch(digits: nat, descLen: nat, suffix: Option<Direction>)

  const NoTransactionMarker: string := "-- no-transaction"

  /** The text the optional direction group plus the final `\.sql` consume. */
  function SuffixText(dir: Option<Direction>): string {
    match dir
    case Some(Down) => ".down.sql"
    case Some(Up) => ".up.sql"
    case None => ".sql"
  }

  /** The tail of the name after the description starts with the suffix for `dir`. */
  predicate SuffixAt(t: string, dir: Option<Direction>) {
    SuffixText(dir) <= t
  }

  /** At most one suffix form can start a given text (they differ in their second character). */
  lemma SuffixUnique(t: string, d1: Option<Direction>, d2: Option<Direction>)
    requires SuffixAt(t, d1) && SuffixAt(t, d2)
    ensures d1 == d2
  {
    assert SuffixText(d1)[1] == t[1] == SuffixText(d2)[1];
  }

  /** Which suffix, if any, the regex finds at the start of `t`. */
  function MatchSuffix(t: string): (r: Option<Option<Direction>>)
    ensures r.Some? ==> SuffixAt(t, r.value)
    ensures r.None? ==> forall dir :: !SuffixAt(t, dir)
  {
    if SuffixAt(t, Some(Down)) then Some(Some(Down))
    else if SuffixAt(t, Some(Up)) then Some(Some(Up))
    else if SuffixAt(t, None) then Some(None)
    else None
  }

  predicate NoNewline(s: string) {
    forall i :: 0 <= i < |s| ==> s[i] != '\n'
  }

  /**
   * The regex accepts `name` with version digits `name[..k]`, description of length `j`
   * and direction suffix `dir` (whatever follows the suffix is ignored by `re.match`).
   */
  predicate IsMatch(name: string, k: nat, j: nat, dir: Option<Direction>) {
    && 0 < k
    && 1 <= j
    && k + 1 + j <= |name|
    && Decimal.AllDigits(name[..k])
    && name[k] == '_'
    && NoNewline(name[k + 1..k + 1 + j])
    && SuffixAt(name[k + 1 + j..], dir)
  }

  /** Length of the maximal run of ASCII digits at the start of `s` (greedy `\d+`). */
  function DigitRun(s: string): (k: nat)
    ensures k <= |s|
    ensures Decimal.AllDigits(s[..k])
    ensures k < |s| ==> !Decimal.IsDigit(s[k])
  {
    if |s| == 0 || !Decimal.IsDigit(s[0]) then 0
    else
      var k := 1 + DigitRun(s[1..]);
      assert s[..k] == [s[0]] + s[1..][..k - 1];
      k
  }

  /** The description may end at `j` in `rest` (the text after `<digits>_`). */
  predicate DescriptionEndsAt(rest: string, j: nat, dir: Option<Direction>) {
    1 <= j <= |rest| && NoNewline(rest[..j]) && SuffixAt(rest[j..], dir)
  }

  /** The lazy `.+?`: the first description end at or after `j`, every character before
      position `j - 1` having been checked already. */
  function ScanDescription(rest: string, j: nat): (r: Option<(nat, Option<Direction>)>)
    requires 1 <= j <= |rest| + 1
    requires NoNewline(rest[..j - 1])
    ensures r.Some? ==> j <= r.value.0 && DescriptionEndsAt(rest, r.value.0, r.value.1)
    ensures r.Some? ==> forall j', dir :: j <= j' < r.value.0 ==> !DescriptionEndsAt(rest, j', dir)
    ensures r.None? ==> forall j', dir :: j <= j' ==> !DescriptionEndsAt(rest, j', dir)
    decreases |rest| + 1 - j
  {
    if j > |rest| then None
    else if rest[j - 1] == '\n' then
      assert forall j' :: j <= j' <= |rest| ==> rest[..j'][j - 1] == '\n';
      None
    else
      assert rest[..j] == rest[..j - 1] + [rest[j - 1]];
      match MatchSuffix(rest[j..])
      case Some(dir) => Some((j, dir))
      case None => ScanDescription(rest, j + 1)
  }

  /** `MIGRATION_FILE_RE.match(name)`: the unique version split and the shortest description. */
  function MatchName(name: string): (r: Option<NameMatch>)
    ensures r.Some? ==> IsMatch(name, r.value.digits, r.value.descLen, r.value.suffix)
    ensures r.Some? ==> forall k, j, dir :: IsMatch(name, k, j, dir) ==> k == r.value.digits && r.value.descLen <= j
    ensures r.None? ==> forall k, j, dir :: !IsMatch(name, k, j, dir)
  {
    var k := DigitRun(name);
    VersionAtDigitRun(name);
    if k == 0 || k >= |name| || name[k] != '_' then None
    else
      DescriptionAfterVersion(name, k);
      match ScanDescription(name[k + 1..], 1)
      case None => None
      case Some((j, dir)) => Some(NameMatch(k, j, dir))
  }

  /** Every match splits the version off where the digit run ends. */
  lemma VersionAtDigitRun(name: string)
    ensures forall k, j, dir :: IsMatch(name, k, j, dir) ==> k == DigitRun(name)
  {
    forall k, j, dir | IsMatch(name, k, j, dir)
      ensures k == DigitRun(name)
    {
      VersionSplitUnique(name, k, DigitRun(name));
    }
  }

  /** Once the version is split off, a match is a description end in the rest of the name. */
  lemma DescriptionAfterVersion(name: string, k: nat)
    requires k < |name|
    ensures forall j: nat, dir :: IsMatch(name, k, j, dir) ==>
              Decimal.AllDigits(name[..k]) && name[k] == '_' && DescriptionEndsAt(name[k + 1..], j, dir)
    ensures forall j: nat, dir :: DescriptionEndsAt(name[k + 1..], j, dir) && 0 < k && Decimal.AllDigits(name[..k]) && name[k] == '_' ==>
              IsMatch(name, k, j, dir)
  {
    var rest := name[k + 1..];
    forall j: nat | 1 <= j <= |rest|
      ensures name[k + 1..k + 1 + j] == rest[..j] && name[k + 1 + j..] == rest[j..]
    {
    }
  }

  /** Greedy `\d+` followed by `_`: the version digits can only end where the digit run ends. */
  lemma VersionSplitUnique(name: string, k': nat, k: nat)
    requires k' < |name| && Decimal.AllDigits(name[..k']) && name[k'] == '_'
    requires k <= |name| && Decimal.AllDigits(name[..k]) && (k < |name| ==> !Decimal.IsDigit(name[k]))
    ensures k' == k
  {
    if k' < k {
      assert false;
    } else if k < k' {
      assert false;
    }
  }

  /** `str.replace(a, b)` for single characters: every `a` becomes `b`, nothing else changes. */
  function Replace(s: string, a: char, b: char): (r: string)
    ensures |r| == |s|
    ensures forall i :: 0 <= i < |s| ==> r[i] == (if s[i] == a then b else s[i])
  {
    if |s| == 0 then [] else Replace(s[..|s| - 1], a, b) + [if s[|s| - 1] == a then b else s[|s| - 1]]
  }

  /**
   * `Migration.from_file`: the name is matched first (an unmatched name is rejected
   * before the file is read), then the bytes are digested and decoded.
   */
  function FromFile(name: string, content: seq<byte>, oracle: FileOracle): Result<Migration, FileError> {
    match MatchName(name)
    case None => Err(InvalidName(name))
    case Some(m) =>
      match oracle.decode(content)
      case None => Err(NotUtf8(name))
      case Some(sql) =>
        var desc := name[m.digits + 1..m.digits + 1 + m.descLen];
        Ok(Migration(
             Decimal.Value(name[..m.digits]),
             Replace(desc, '_', ' '),
             m.suffix.GetOr(Up),
             sql,
             oracle.digest(content),
             NoTransactionMarker <= sql))
  }

  /**
   * What `from_file` promises: a name the regex rejects raises `ValueError` naming the
   * file; otherwise the descriptor takes the version from the digits, the description
   * from the shortest matching slug with every `_` turned into a space, the direction
   * from the suffix (`up` when there is none), the checksum from the raw bytes, and the
   * no-transaction flag from the leading marker of the decoded text.
   */
  lemma FromFileSpec(name: string, content: seq<byte>, oracle: FileOracle)
    ensures var r := FromFile(name, content, oracle);
      && (r == Err(InvalidName(name)) <==> forall k, j, dir :: !IsMatch(name, k, j, dir))
      && (r == Err(NotUtf8(name)) <==> MatchName(name).Some? && oracle.decode(content).None?)
      && (r.Ok? ==> oracle.decode(content) == Some(r.value.sql) && r.value.checksum == oracle.digest(content))
      && (r.Ok? ==> (r.value.noTx <==> NoTransactionMarker <= r.value.sql))
      && (r.Ok? ==> var m := MatchName(name).value;
           && r.value.version == Decimal.Value(name[..m.digits])
           && r.value.description == Replace(name[m.digits + 1..m.digits + 1 + m.descLen], '_', ' ')
           && r.value.direction == m.suffix.GetOr(Up))
  {
  }

  /** The file name `migrate add` writes for one direction. */
  function AddedFileName(stamp: string, description: string, dir: Direction): string {
    stamp + "_" + Replace(description, ' ', '_') + SuffixText(Some(dir))
  }

  /** A description `migrate add` can round-trip: no `_` (it would come back as a
      space), no `.` (it could end the description early), no newline, and no `/`
      (the file would land in a subdirectory of the source). */
  predicate PlainDescription(d: string) {
    0 < |d| && forall i :: 0 <= i < |d| ==> d[i] != '_' && d[i] != '.' && d[i] != '\n' && d[i] != '/'
  }

  /** Once the name matches and the bytes decode, `from_file` builds the descriptor. */
  lemma FromMatchedName(name: string, content: seq<byte>, oracle: FileOracle)
    requires MatchName(name).Some? && oracle.decode(content).Some?
    ensures var m := MatchName(name).value;
            var r := FromFile(name, content, oracle);
            && r.Ok?
            && r.value.version == Decimal.Value(name[..m.digits])
            && r.value.description == Replace(name[m.digits + 1..m.digits + 1 + m.descLen], '_', ' ')
            && r.value.direction == m.suffix.GetOr(Up)
  {
  }

  /** Underscores put in for spaces come back as spaces when the description had none. */
  lemma PlainDescriptionRoundTrip(d: string)
    requires PlainDescription(d)
    ensures Replace(Replace(d, ' ', '_'), '_', ' ') == d
  {
  }

  /** Every suffix starts with '.', so none starts inside a stretch of the name without one. */
  lemma NoSuffixInside(name: string, start: nat, n: nat)
    requires start + n <= |name|
    requires forall i :: start <= i < start + n ==> name[i] != '.'
    ensures forall p, dir :: start <= p < start + n ==> !SuffixAt(name[p..], dir)
  {
    forall p, dir | start <= p < start + n
      ensures !SuffixAt(name[p..], dir)
    {
      assert SuffixText(dir)[0] == '.';
      assert name[p..][0] == name[p];
    }
  }

  /** The name `migrate add` writes matches in full, at the stamp and the whole description. */
  lemma AddedNameMatches(stamp: string, description: string, dir: Direction)
    requires |stamp| == 14 && Decimal.AllDigits(stamp)
    requires PlainDescription(description)
    ensures MatchName(AddedFileName(stamp, description, dir)) == Some(NameMatch(14, |description|, Some(dir)))
  {
    var name := AddedFileName(stamp, description, dir);
    var u := Replace(description, ' ', '_');
    var n := |description|;
    assert name == stamp + "_" + u + SuffixText(Some(dir));
    assert name[..14] == stamp;
    assert name[15..15 + n] == u;
    assert name[15 + n..] == SuffixText(Some(dir));
    assert IsMatch(name, 14, n, Some(dir));
    var m := MatchName(name).value;
    assert m.digits == 14;
    assert forall i :: 15 <= i < 15 + n ==> name[i] == u[i - 15];
    NoSuffixInside(name, 15, n);
    assert m.descLen == n;
    SuffixUnique(name[15 + n..], m.suffix, Some(dir));
  }

  /**
   * Add/parse round trip: the name `{stamp}_{desc with ' ' -> '_'}.{up|down}.sql` is
   * matched in full and gives back the stamp's version, the direction and the description.
   */
  lemma AddedNameRoundTrip(stamp: string, description: string, dir: Direction, content: seq<byte>, oracle: FileOracle)
    requires |stamp| == 14 && Decimal.AllDigits(stamp)
    requires PlainDescription(description)
    requires oracle.decode(content).Some?
    ensures var r := FromFile(AddedFileName(stamp, description, dir), content, oracle);
            && r.Ok?
            && r.value.version == Decimal.Value(stamp)
            && r.value.direction == dir
            && r.value.description == description
  {
    var name := AddedFileName(stamp, description, dir);
    AddedNameMatches(stamp, description, dir);
    FromMatchedName(name, content, oracle);
    assert name[..14] == stamp;
    assert name[15..15 + |description|] == Replace(description, ' ', '_');
    PlainDescriptionRoundTrip(description);
  }

  /**
   * The match is not anchored at the end: in `1_a.sql.down.sql` the shortest description
   * `a` is followed by `.sql`, so the file is read as an `up` migration named "a" and the
   * trailing `.down.sql` is ignored.
   */
  lemma UnanchoredMatch(content: seq<byte>, oracle: FileOracle)
    requires oracle.decode(content).Some?
    ensures MatchName("1_a.sql.down.sql") == Some(NameMatch(1, 1, None))
    ensures var r := FromFile("1_a.sql.down.sql", content, oracle);
            r.Ok? && r.value.direction == Up && r.value.description == "a"
  {
    var name := "1_a.sql.down.sql";
    assert name[..1] == "1" && name[2..3] == "a" && name[3..] == ".sql.down.sql";
    assert IsMatch(name, 1, 1, None);
    var m := MatchName(name).value;
    assert m.digits == 1 && m.descLen == 1;
    SuffixUnique(name[3..], m.suffix, None);
    assert MatchName(name) == Some(NameMatch(1, 1, None));
    FromMatchedName(name, content, oracle);
    assert Replace("a", '_', ' ') == "a";
  }
}
