/**
 * The `_sqlx_migrations` table and the checks `migrate run` and `migrate revert` make
 * against it before anything executes: `check_dirty_migration`,
 * `validate_applied_migrations` and the latest-applied version.
 *
 * The table is keyed by `version` (its primary key), so it is a finite map from
 * version to the remaining columns. `installed_on` and `execution_time` never take part
 * in a decision and are not modelled.
 */
module Ledger {
  import opened Wrappers
  import opened MigrationFile
  import opened Resolver
  import opened IntSets

  /** One row of `_sqlx_migrations`, without its key. */
  datatype Row = Row(description: string, success: bool, checksum: seq<byte>)

  type Ledger = map<int, Row>

  /** Every way `migrate run`/`migrate revert` can stop with an error. */
  datatype MigrateError =
    | SourceInvalid(cause: ResolveError)
    | Dirty(version: int)
    | MissingFile(version: int)
    | TargetBelowLatest(target: int, latest: int)
    | TargetAboveLatest(target: int, latest: int)
    | Modified(version: int)
    | ExecFailed(version: int)

  /** The versions the resolved migrations carry, of either direction. */
  function Versions(ms: seq<Migration>): set<int> {
    set m | m in ms :: m.version as int
  }

  /** Versions whose row records a failed (partial) application. */
  function DirtyVersions(l: Ledger): set<int> {
    set v | v in l && !l[v].success
  }

  /** Applied versions that no resolved migration carries. */
  function MissingVersions(l: Ledger, ms: seq<Migration>): set<int> {
    set v | v in l && v !in Versions(ms)
  }

  /**
   * The checks before the loop: a dirty row aborts naming the lowest dirty version;
   * then, walking the rows by version, the first applied version missing from the
   * resolved migrations aborts, unless missing versions are ignored, in which case each
   * one is a warning. The result is the warnings in the order they are printed.
   */
  function Preflight(l: Ledger, ms: seq<Migration>, ignoreMissing: bool): (r: Result<seq<int>, MigrateError>)
    ensures r.Err? && r.error.Dirty? <==> DirtyVersions(l) != {}
    ensures r.Err? && r.error.Dirty? ==>
              var v := r.error.version; v in l && !l[v].success && forall u :: u in l && !l[u].success ==> v <= u
    ensures r.Err? && r.error.MissingFile? <==> DirtyVersions(l) == {} && MissingVersions(l, ms) != {} && !ignoreMissing
    ensures r.Err? && r.error.MissingFile? ==>
              var v := r.error.version; v in l && v !in Versions(ms) && forall u :: u in l && u !in Versions(ms) ==> v <= u
    ensures r.Err? ==> r.error.Dirty? || r.error.MissingFile?
    ensures r.Ok? ==> forall v :: v in r.value <==> v in l && v !in Versions(ms)
    ensures r.Ok? ==> forall i, j :: 0 <= i < j < |r.value| ==> r.value[i] < r.value[j]
  {
    var dirty := DirtyVersions(l);
    var missing := MissingVersions(l, ms);
    assert forall u :: u in l && !l[u].success ==> u in dirty;
    assert forall u :: u in l && u !in Versions(ms) ==> u in missing;
    if dirty != {} then Err(Dirty(Least(dirty)))
    else if missing != {} && !ignoreMissing then Err(MissingFile(Least(missing)))
    else Ok(Ascending(missing))
  }

  /** The highest applied version, and 0 for an empty table. */
  function Latest(l: Ledger): (r: int)
    ensures l == map[] ==> r == 0
    ensures l != map[] ==> r in l && forall v :: v in l ==> v <= r
  {
    if l == map[] then 0 else Greatest(l.Keys)
  }

  /** A bound on every applied version (and on 0 when nothing is applied) bounds the latest one. */
  lemma LatestAtMost(l: Ledger, t: int)
    requires forall v :: v in l ==> v <= t
    requires l == map[] ==> 0 <= t
    ensures Latest(l) <= t
  {
  }
}
