/**
 * The migration source directory: `Migrator.__init__`, `Migrator.resolve_migrations`,
 * and the directory effect of `migrate add`.
 *
 * A directory is the sequence of its files in the order `Path.glob` yields them; that
 * order is unspecified, so the model takes it as given. The resolved list is sorted by
 * version with Python's stable `list.sort`, so files sharing a version keep their glob
 * order.
 */
module Resolver {
  import opened Wrappers
  import opened MigrationFile
  import Decimal

  datatype FileEntry = FileEntry(name: string, content: seq<byte>)

  /** What the `--source` path is on disk. */
  datatype Source = Missing | NotADirectory | Directory(entries: seq<FileEntry>)

  datatype ResolveError = SourceNotADirectory | BadFile(error: FileError)

  /** `glob("*.sql")` selects the names ending in `.sql`. */
  predicate IsSqlFile(e: FileEntry) {
    4 <= |e.name| && e.name[|e.name| - 4..] == ".sql"
  }

  function SqlFiles(es: seq<FileEntry>): (r: seq<FileEntry>)
    ensures forall e :: e in r <==> e in es && IsSqlFile(e)
  {
    if |es| == 0 then []
    else if IsSqlFile(es[0]) then [es[0]] + SqlFiles(es[1..])
    else SqlFiles(es[1..])
  }

  /** `Migration.from_file` applied to one directory entry. */
  function FileParser(oracle: FileOracle): FileEntry -> Result<Migration, FileError> {
    (e: FileEntry) => FromFile(e.name, e.content, oracle)
  }

  /** A list comprehension over `parse`: the first entry that fails aborts it. */
  function ParseEach(es: seq<FileEntry>, parse: FileEntry -> Result<Migration, FileError>): Result<seq<Migration>, FileError> {
    if |es| == 0 then Ok([])
    else
      match parse(es[0])
      case Err(e) => Err(e)
      case Ok(m) =>
        match ParseEach(es[1..], parse)
        case Err(e) => Err(e)
        case Ok(ms) => Ok([m] + ms)
  }

  /** The comprehension over `Migration.from_file` that `resolve_migrations` runs. */
  function ParseAll(es: seq<FileEntry>, oracle: FileOracle): Result<seq<Migration>, FileError> {
    ParseEach(es, FileParser(oracle))
  }

  lemma {:induction false} ParseEachValues(es: seq<FileEntry>, parse: FileEntry -> Result<Migration, FileError>)
    requires ParseEach(es, parse).Ok?
    ensures |ParseEach(es, parse).value| == |es|
    ensures forall i :: 0 <= i < |es| ==> parse(es[i]) == Ok(ParseEach(es, parse).value[i])
  {
    if |es| > 0 {
      ParseEachValues(es[1..], parse);
      assert forall i :: 0 < i < |es| ==> es[i] == es[1..][i - 1];
    }
  }

  lemma {:induction false} ParseEachSucceeds(es: seq<FileEntry>, parse: FileEntry -> Result<Migration, FileError>)
    requires forall i :: 0 <= i < |es| ==> parse(es[i]).Ok?
    ensures ParseEach(es, parse).Ok?
  {
    if |es| > 0 {
      assert forall i :: 0 < i < |es| ==> es[i] == es[1..][i - 1];
      ParseEachSucceeds(es[1..], parse);
    }
  }

  lemma {:induction false} ParseEachFirstError(es: seq<FileEntry>, parse: FileEntry -> Result<Migration, FileError>)
    requires ParseEach(es, parse).Err?
    ensures exists i :: 0 <= i < |es| && parse(es[i]) == Err(ParseEach(es, parse).error)
                        && forall j :: 0 <= j < i ==> parse(es[j]).Ok?
  {
    var e := ParseEach(es, parse).error;
    if parse(es[0]).Ok? {
      ParseEachFirstError(es[1..], parse);
      var i :| 0 <= i < |es[1..]| && parse(es[1..][i]) == Err(e) && forall j :: 0 <= j < i ==> parse(es[1..][j]).Ok?;
      assert es[i + 1] == es[1..][i];
      forall j | 0 < j < i + 1
        ensures parse(es[j]).Ok?
      {
        assert es[j] == es[1..][j - 1];
      }
    }
  }

  /** A successful comprehension holds one descriptor per file, each the file's own. */
  lemma ParseAllValues(es: seq<FileEntry>, oracle: FileOracle)
    requires ParseAll(es, oracle).Ok?
    ensures |ParseAll(es, oracle).value| == |es|
    ensures forall i :: 0 <= i < |es| ==> FromFile(es[i].name, es[i].content, oracle) == Ok(ParseAll(es, oracle).value[i])
  {
    ParseEachValues(es, FileParser(oracle));
  }

  /** The comprehension succeeds when every file parses. */
  lemma ParseAllSucceeds(es: seq<FileEntry>, oracle: FileOracle)
    requires forall i :: 0 <= i < |es| ==> FromFile(es[i].name, es[i].content, oracle).Ok?
    ensures ParseAll(es, oracle).Ok?
  {
    assert forall i :: 0 <= i < |es| ==> FileParser(oracle)(es[i]).Ok?;
    ParseEachSucceeds(es, FileParser(oracle));
  }

  /** A failed comprehension reports the error of the first file that fails. */
  lemma ParseAllFirstError(es: seq<FileEntry>, oracle: FileOracle)
    requires ParseAll(es, oracle).Err?
    ensures exists i :: 0 <= i < |es| && FromFile(es[i].name, es[i].content, oracle) == Err(ParseAll(es, oracle).error)
                        && forall j :: 0 <= j < i ==> FromFile(es[j].name, es[j].content, oracle).Ok?
  {
    ParseEachFirstError(es, FileParser(oracle));
    var i :| 0 <= i < |es| && FileParser(oracle)(es[i]) == Err(ParseAll(es, oracle).error)
             && forall j :: 0 <= j < i ==> FileParser(oracle)(es[j]).Ok?;
    assert FromFile(es[i].name, es[i].content, oracle) == Err(ParseAll(es, oracle).error);
  }

  predicate SortedByVersion(ms: seq<Migration>) {
    forall i, j :: 0 <= i < j < |ms| ==> ms[i].version <= ms[j].version
  }

  /** The migrations of `ms` carrying version `v`, in their order in `ms`. */
  function WithVersion(ms: seq<Migration>, v: nat): seq<Migration> {
    if |ms| == 0 then []
    else WithVersion(ms[..|ms| - 1], v) + (if ms[|ms| - 1].version == v then [ms[|ms| - 1]] else [])
  }

  /** Insertion into a sorted list after every element of no greater version. */
  function Insert(s: seq<Migration>, m: Migration): (r: seq<Migration>)
    requires SortedByVersion(s)
    ensures |r| == |s| + 1
    ensures forall k :: 0 <= k < |r| ==> r[k] == m || r[k] in s
    ensures SortedByVersion(r)
  {
    if |s| == 0 || s[|s| - 1].version <= m.version then s + [m]
    else
      var last := s[|s| - 1];
      var init := s[..|s| - 1];
      var r' := Insert(init, m);
      assert forall k :: 0 <= k < |init| ==> init[k] == s[k];
      assert forall k :: 0 <= k < |r'| ==> r'[k].version <= last.version;
      r' + [last]
  }

  /** Insertion adds exactly the new migration. */
  lemma {:induction false} InsertPermutes(s: seq<Migration>, m: Migration)
    requires SortedByVersion(s)
    ensures multiset(Insert(s, m)) == multiset(s) + multiset{m}
  {
    if |s| > 0 && s[|s| - 1].version > m.version {
      var init := s[..|s| - 1];
      InsertPermutes(init, m);
      assert s == init + [s[|s| - 1]];
    }
  }

  /** A stable sort by version (Python's `list.sort(key=lambda m: m.version)`). */
  function SortByVersion(s: seq<Migration>): (r: seq<Migration>)
    ensures SortedByVersion(r)
    ensures multiset(r) == multiset(s)
  {
    if |s| == 0 then []
    else
      var init := s[..|s| - 1];
      InsertPermutes(SortByVersion(init), s[|s| - 1]);
      assert s == init + [s[|s| - 1]];
      Insert(SortByVersion(init), s[|s| - 1])
  }

  lemma WithVersionSnoc(ms: seq<Migration>, x: Migration, v: nat)
    ensures WithVersion(ms + [x], v) == WithVersion(ms, v) + (if x.version == v then [x] else [])
  {
    assert (ms + [x])[..|ms|] == ms;
  }

  /** Insertion below the last element keeps that element last. */
  lemma InsertBeforeLast(s: seq<Migration>, m: Migration)
    requires SortedByVersion(s) && |s| > 0 && s[|s| - 1].version > m.version
    ensures SortedByVersion(s[..|s| - 1])
    ensures Insert(s, m) == Insert(s[..|s| - 1], m) + [s[|s| - 1]]
  {
  }

  lemma {:induction false} InsertStable(s: seq<Migration>, m: Migration, v: nat)
    requires SortedByVersion(s)
    ensures WithVersion(Insert(s, m), v) == WithVersion(s, v) + (if m.version == v then [m] else [])
  {
    if |s| == 0 || s[|s| - 1].version <= m.version {
      WithVersionSnoc(s, m, v);
    } else {
      var init := s[..|s| - 1];
      InsertBeforeLast(s, m);
      InsertStable(init, m, v);
      WithVersionSnoc(Insert(init, m), s[|s| - 1], v);
    }
  }

  /** Sorting keeps, for every version, the migrations of that version in their input order. */
  lemma {:induction false} SortStable(s: seq<Migration>, v: nat)
    ensures WithVersion(SortByVersion(s), v) == WithVersion(s, v)
  {
    if |s| > 0 {
      SortStable(s[..|s| - 1], v);
      InsertStable(SortByVersion(s[..|s| - 1]), s[|s| - 1], v);
    }
  }

  /**
   * `Migrator(source).resolve_migrations()`: a non-directory source is rejected at
   * construction, a missing one resolves to nothing, otherwise every `*.sql` file is
   * parsed and the result is stably sorted by version.
   */
  function Resolve(source: Source, oracle: FileOracle): (r: Result<seq<Migration>, ResolveError>)
    ensures r == Err(SourceNotADirectory) <==> source.NotADirectory?
    ensures source.Missing? ==> r == Ok([])
    ensures r.Ok? ==> SortedByVersion(r.value)
    ensures source.Directory? ==> match ParseAll(SqlFiles(source.entries), oracle)
      case Err(e) => r == Err(BadFile(e))
      case Ok(parsed) => r.Ok? && multiset(r.value) == multiset(parsed)
  {
    match source
    case NotADirectory => Err(SourceNotADirectory)
    case Missing => Ok([])
    case Directory(entries) =>
      match ParseAll(SqlFiles(entries), oracle)
      case Err(e) => Err(BadFile(e))
      case Ok(parsed) => Ok(SortByVersion(parsed))
  }

  /** Resolution is stable: per version, the files appear in glob order. */
  lemma ResolveStable(entries: seq<FileEntry>, oracle: FileOracle, v: nat)
    requires ParseAll(SqlFiles(entries), oracle).Ok?
    ensures WithVersion(Resolve(Directory(entries), oracle).value, v) == WithVersion(ParseAll(SqlFiles(entries), oracle).value, v)
  {
    SortStable(ParseAll(SqlFiles(entries), oracle).value, v);
  }

  datatype AddError = AddSourceNotADirectory

  /** The bytes of an ASCII text (the placeholder scripts are ASCII). */
  function AsciiBytes(s: string): (r: seq<byte>)
    requires forall i :: 0 <= i < |s| ==> s[i] as int < 128
    ensures |r| == |s|
  {
    seq(|s|, i requires 0 <= i < |s| => s[i] as int)
  }

  function DirectionName(dir: Direction): string {
    match dir
    case Up => "up"
    case Down => "down"
  }

  /** `f"-- Add {migration_type} migration script here"`. */
  function Placeholder(dir: Direction): seq<byte> {
    AsciiBytes("-- Add " + DirectionName(dir) + " migration script here")
  }

  /** No two entries of a directory share a name. */
  predicate UniqueNames(es: seq<FileEntry>) {
    forall i, j :: 0 <= i < j < |es| ==> es[i].name != es[j].name
  }

  /**
   * `Path.write_text`: creates the file, or overwrites it in place when it exists, so in
   * a directory the named file then holds only the new content.
   */
  function WriteFile(es: seq<FileEntry>, name: string, content: seq<byte>): (r: seq<FileEntry>)
    ensures FileEntry(name, content) in r
    ensures forall e :: e in r && e.name != name ==> e in es
    ensures forall e :: e in es && e.name != name ==> e in r
    ensures UniqueNames(es) ==> UniqueNames(r) && forall e :: e in r && e.name == name ==> e.content == content
  {
    if |es| == 0 then [FileEntry(name, content)]
    else if es[0].name == name then
      assert UniqueNames(es) ==> forall e :: e in es[1..] ==> e.name != name;
      [FileEntry(name, content)] + es[1..]
    else
      var rest := WriteFile(es[1..], name, content);
      assert UniqueNames(es) ==> UniqueNames(es[1..]) && forall e :: e in rest ==> e.name != es[0].name;
      [es[0]] + rest
  }

  /**
   * `migrate add DESCRIPTION`: a non-directory source is an error, a missing one is
   * created, then the up file and the down file are written, in that order.
   */
  function MigrateAdd(source: Source, stamp: string, description: string): (r: Result<Source, AddError>)
    requires |stamp| == 14 && Decimal.AllDigits(stamp)
    ensures r.Err? <==> source.NotADirectory?
    ensures r.Ok? ==> r.value.Directory?
    ensures r.Ok? ==> FileEntry(AddedFileName(stamp, description, Up), Placeholder(Up)) in r.value.entries
    ensures r.Ok? ==> FileEntry(AddedFileName(stamp, description, Down), Placeholder(Down)) in r.value.entries
    ensures r.Ok? && source.Directory? ==>
              forall e :: (e in source.entries && e.name != AddedFileName(stamp, description, Up)
                           && e.name != AddedFileName(stamp, description, Down)) ==> e in r.value.entries
    ensures r.Ok? ==>
              forall e :: e in r.value.entries ==>
                || e.name == AddedFileName(stamp, description, Up)
                || e.name == AddedFileName(stamp, description, Down)
                || (source.Directory? && e in source.entries)
    ensures r.Ok? && (source.Directory? ==> UniqueNames(source.entries)) ==>
              && UniqueNames(r.value.entries)
              && (forall e :: e in r.value.entries && e.name == AddedFileName(stamp, description, Up) ==>
                    e.content == Placeholder(Up))
              && (forall e :: e in r.value.entries && e.name == AddedFileName(stamp, description, Down) ==>
                    e.content == Placeholder(Down))
  {
    var es :- match source
      case NotADirectory => Err(AddSourceNotADirectory)
      case Missing => Ok([])
      case Directory(entries) => Ok(entries);
    var up := AddedFileName(stamp, description, Up);
    var down := AddedFileName(stamp, description, Down);
    assert up != down by {
      assert |up| + 2 == |down|;
    }
    var es' := WriteFile(WriteFile(es, up, Placeholder(Up)), down, Placeholder(Down));
    Ok(Directory(es'))
  }

  /** `migrate add` into a missing source creates it holding exactly the up file, then the down file. */
  lemma AddToMissing(stamp: string, description: string)
    requires |stamp| == 14 && Decimal.AllDigits(stamp)
    ensures MigrateAdd(Missing, stamp, description).value.entries
            == [FileEntry(AddedFileName(stamp, description, Up), Placeholder(Up)),
                FileEntry(AddedFileName(stamp, description, Down), Placeholder(Down))]
  {
    var up := FileEntry(AddedFileName(stamp, description, Up), Placeholder(Up));
    var down := FileEntry(AddedFileName(stamp, description, Down), Placeholder(Down));
    assert |up.name| + 2 == |down.name|;
    assert WriteFile([], up.name, up.content) == [up];
    assert WriteFile([up], down.name, down.content) == [up] + WriteFile([up][1..], down.name, down.content);
    assert [up][1..] == [];
  }

  lemma SqlFilesPair(a: FileEntry, b: FileEntry)
    requires IsSqlFile(a) && IsSqlFile(b)
    ensures SqlFiles([a, b]) == [a, b]
  {
    assert [a, b][1..] == [b];
    assert [b][1..] == [];
    assert SqlFiles([b]) == [b] + SqlFiles([]);
    assert SqlFiles([a, b]) == [a] + SqlFiles([b]);
  }

  lemma ParseEachPair(a: FileEntry, b: FileEntry, parse: FileEntry -> Result<Migration, FileError>, ma: Migration, mb: Migration)
    requires parse(a) == Ok(ma) && parse(b) == Ok(mb)
    ensures ParseEach([a, b], parse) == Ok([ma, mb])
  {
    assert [a, b][1..] == [b] && [b][1..] == [];
    assert ParseEach([], parse) == Ok([]);
    assert [mb] + [] == [mb];
    assert ParseEach([b], parse) == Ok([mb]);
    assert [ma] + [mb] == [ma, mb];
  }

  lemma ParsePair(a: FileEntry, b: FileEntry, oracle: FileOracle, ma: Migration, mb: Migration)
    requires FromFile(a.name, a.content, oracle) == Ok(ma) && FromFile(b.name, b.content, oracle) == Ok(mb)
    ensures ParseAll([a, b], oracle) == Ok([ma, mb])
  {
    ParseEachPair(a, b, FileParser(oracle), ma, mb);
  }

  lemma SortPair(ma: Migration, mb: Migration)
    requires ma.version <= mb.version
    ensures SortByVersion([ma, mb]) == [ma, mb]
  {
    assert [ma, mb][..1] == [ma];
    assert [ma][..0] == [];
  }

  /** Resolving a directory of two well-formed files, the first of no greater version. */
  lemma ResolvePair(a: FileEntry, b: FileEntry, oracle: FileOracle, ma: Migration, mb: Migration)
    requires IsSqlFile(a) && IsSqlFile(b)
    requires FromFile(a.name, a.content, oracle) == Ok(ma) && FromFile(b.name, b.content, oracle) == Ok(mb)
    requires ma.version <= mb.version
    ensures Resolve(Directory([a, b]), oracle) == Ok([ma, mb])
  {
    SqlFilesPair(a, b);
    ParsePair(a, b, oracle, ma, mb);
    SortPair(ma, mb);
  }

  /** The names `migrate add` writes are picked up by the `*.sql` glob. */
  lemma AddedIsSql(stamp: string, description: string, dir: Direction, content: seq<byte>)
    ensures IsSqlFile(FileEntry(AddedFileName(stamp, description, dir), content))
  {
    var name := AddedFileName(stamp, description, dir);
    var suffix := SuffixText(Some(dir));
    assert name == (stamp + "_" + Replace(description, ' ', '_')) + suffix;
    assert name[|name| - 4..] == suffix[|suffix| - 4..];
  }

  /**
   * `migrate add` into a missing source, then resolving it, yields exactly the new up
   * migration followed by the new down migration, both carrying the stamp's version and
   * the description.
   */
  lemma AddThenResolve(stamp: string, description: string, oracle: FileOracle)
    requires |stamp| == 14 && Decimal.AllDigits(stamp)
    requires PlainDescription(description)
    requires oracle.decode(Placeholder(Up)).Some? && oracle.decode(Placeholder(Down)).Some?
    ensures var r := Resolve(MigrateAdd(Missing, stamp, description).value, oracle);
            && r.Ok? && |r.value| == 2
            && r.value[0].direction == Up && r.value[1].direction == Down
            && r.value[0].version == r.value[1].version == Decimal.Value(stamp)
            && r.value[0].description == r.value[1].description == description
  {
    var up := FileEntry(AddedFileName(stamp, description, Up), Placeholder(Up));
    var down := FileEntry(AddedFileName(stamp, description, Down), Placeholder(Down));
    AddToMissing(stamp, description);
    AddedNameRoundTrip(stamp, description, Up, Placeholder(Up), oracle);
    AddedNameRoundTrip(stamp, description, Down, Placeholder(Down), oracle);
    AddedIsSql(stamp, description, Up, Placeholder(Up));
    AddedIsSql(stamp, description, Down, Placeholder(Down));
    ResolvePair(up, down, oracle, FromFile(up.name, up.content, oracle).value, FromFile(down.name, down.content, oracle).value);
  }
}
