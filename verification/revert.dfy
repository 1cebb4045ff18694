/**
 * The decision logic of `migrate revert`: the same checks and target guard as
 * `migrate run`, then a walk over the resolved migrations in reverse that undoes each
 * applied version having a `down` file, deleting its row. Without a target the walk
 * stops after the first such file; with one, it skips every version not above the
 * target.
 */
module Revert {
  import opened Wrappers
  import opened MigrationFile
  import opened Resolver
  import opened IntSets
  import opened Ledger
  import opened Runner

  function Reverse(s: seq<Migration>): (r: seq<Migration>)
    ensures |r| == |s|
    ensures forall i :: 0 <= i < |s| ==> r[i] == s[|s| - 1 - i]
  {
    if |s| == 0 then [] else Reverse(s[1..]) + [s[0]]
  }

  /** The versions carried by `down` files. */
  function DownVersions(ms: seq<Migration>): set<int> {
    set m | m in ms && m.direction == Down :: m.version as int
  }

  /** The applied versions that have a `down` file: the ones revert can undo. */
  function Revertible(ms: seq<Migration>, l: Ledger): set<int> {
    set v | v in DownVersions(ms) && v in l
  }

  predicate Descending(ms: seq<Migration>) {
    forall i, j :: 0 <= i < j < |ms| ==> ms[i].version >= ms[j].version
  }

  /**
   * The loop over the migrations in reverse. `applied` is the snapshot taken before the
   * loop, `cur` the table as the loop leaves it. The loop only deletes rows, and only
   * rows of applied versions above the target that have a `down` file; a dry run
   * deletes nothing.
   */
  function RevertSteps(ms: seq<Migration>, applied: Ledger, cur: Ledger, target: Option<int>, dryRun: bool,
                       exec: Migration -> bool): (r: Progress)
    ensures forall v :: v in r.ledger ==> v in cur && r.ledger[v] == cur[v]
    ensures forall v :: v in cur && v !in r.ledger ==>
              v in applied && v in DownVersions(ms) && (target.None? || v > target.value)
    ensures dryRun ==> r.ledger == cur
  {
    if |ms| == 0 then Progress(cur, [], None)
    else
      var m := ms[0];
      if m.direction == Up || m.version !in applied then RevertSteps(ms[1..], applied, cur, target, dryRun, exec)
      else if target.Some? && m.version <= target.value then
        Emit(Skipped(m), RevertSteps(ms[1..], applied, cur, target, dryRun, exec))
      else if dryRun then
        if target.None? then Progress(cur, [CanApply(m)], None)
        else Emit(CanApply(m), RevertSteps(ms[1..], applied, cur, target, dryRun, exec))
      else if !exec(m) then Progress(cur, [], Some(ExecFailed(m.version)))
      else
        var cur' := cur - {m.version as int};
        if target.None? then Progress(cur', [Applied(m)], None)
        else Emit(Applied(m), RevertSteps(ms[1..], applied, cur', target, dryRun, exec))
  }

  /** `migrate revert` over resolved migrations, as written (see `RevertWithTargetChangesNothing`). */
  function RevertAsWritten(ms: seq<Migration>, l: Ledger, target: Option<int>, dryRun: bool, ignoreMissing: bool,
                           exec: Migration -> bool): (r: Outcome)
    ensures Preflight(l, ms, ignoreMissing).Err? ==>
              r == Outcome(l, [], [], Some(Preflight(l, ms, ignoreMissing).error))
    ensures Preflight(l, ms, ignoreMissing).Ok? ==> r.warnings == Preflight(l, ms, ignoreMissing).value
    ensures Preflight(l, ms, ignoreMissing).Ok? && target.Some? && target.value < Latest(l) ==>
              r.ledger == l && r.events == [] && r.error == Some(TargetBelowLatest(target.value, Latest(l)))
  {
    match Preflight(l, ms, ignoreMissing)
    case Err(e) => Outcome(l, [], [], Some(e))
    case Ok(warnings) =>
      if target.Some? && target.value < Latest(l) then
        Outcome(l, warnings, [], Some(TargetBelowLatest(target.value, Latest(l))))
      else
        var p := RevertSteps(Reverse(ms), l, l, target, dryRun, exec);
        Outcome(p.ledger, warnings, p.events, p.error)
  }

  /**
   * The evidently intended `migrate revert` over resolved migrations: without a target
   * as written, with one the corrected targeted revert `RevertToTarget`.
   */
  function RevertIntended(ms: seq<Migration>, l: Ledger, target: Option<int>, dryRun: bool, ignoreMissing: bool,
                          exec: Migration -> bool): (r: Outcome)
    ensures Preflight(l, ms, ignoreMissing).Err? ==>
              r == Outcome(l, [], [], Some(Preflight(l, ms, ignoreMissing).error))
    ensures Preflight(l, ms, ignoreMissing).Ok? ==> r.warnings == Preflight(l, ms, ignoreMissing).value
    ensures Preflight(l, ms, ignoreMissing).Ok? && target.Some? && target.value > Latest(l) ==>
              r.ledger == l && r.events == [] && r.error == Some(TargetAboveLatest(target.value, Latest(l)))
    ensures target.None? ==> r == RevertAsWritten(ms, l, None, dryRun, ignoreMissing, exec)
  {
    match target
    case None => RevertAsWritten(ms, l, None, dryRun, ignoreMissing, exec)
    case Some(t) => RevertToTarget(ms, l, t, dryRun, ignoreMissing, exec)
  }

  /** The whole command as written, from the source directory. */
  function MigrateRevert(source: Source, oracle: FileOracle, l: Ledger, target: Option<int>, dryRun: bool,
                         ignoreMissing: bool, exec: Migration -> bool): (r: Outcome)
    ensures Resolve(source, oracle).Err? ==>
              r == Outcome(l, [], [], Some(SourceInvalid(Resolve(source, oracle).error)))
    ensures Resolve(source, oracle).Ok? ==>
              r == RevertAsWritten(Resolve(source, oracle).value, l, target, dryRun, ignoreMissing, exec)
  {
    match Resolve(source, oracle)
    case Err(e) => Outcome(l, [], [], Some(SourceInvalid(e)))
    case Ok(ms) => RevertAsWritten(ms, l, target, dryRun, ignoreMissing, exec)
  }

  /** The whole command with the corrected targeted revert, from the source directory. */
  function MigrateRevertIntended(source: Source, oracle: FileOracle, l: Ledger, target: Option<int>, dryRun: bool,
                                 ignoreMissing: bool, exec: Migration -> bool): (r: Outcome)
    ensures Resolve(source, oracle).Err? ==>
              r == Outcome(l, [], [], Some(SourceInvalid(Resolve(source, oracle).error)))
    ensures Resolve(source, oracle).Ok? ==>
              r == RevertIntended(Resolve(source, oracle).value, l, target, dryRun, ignoreMissing, exec)
  {
    match Resolve(source, oracle)
    case Err(e) => Outcome(l, [], [], Some(SourceInvalid(e)))
    case Ok(ms) => RevertIntended(ms, l, target, dryRun, ignoreMissing, exec)
  }

  lemma ReverseDescending(ms: seq<Migration>)
    requires SortedByVersion(ms)
    ensures Descending(Reverse(ms))
  {
  }

  lemma DownVersionsReverse(ms: seq<Migration>)
    ensures DownVersions(Reverse(ms)) == DownVersions(ms)
  {
    var r := Reverse(ms);
    forall m | m in ms ensures m in r {
      var i :| 0 <= i < |ms| && ms[i] == m;
      assert r[|ms| - 1 - i] == m;
    }
    forall m | m in r ensures m in ms {
      var i :| 0 <= i < |r| && r[i] == m;
    }
  }

  /** A walk that starts with a file revert cannot undo has the same revertible versions as its tail. */
  lemma RevertibleTail(ms: seq<Migration>, applied: Ledger)
    requires |ms| > 0 && (ms[0].direction == Up || ms[0].version !in applied)
    ensures Revertible(ms, applied) == Revertible(ms[1..], applied)
  {
    assert forall m' :: m' in ms ==> m' == ms[0] || m' in ms[1..];
    assert forall m' :: m' in ms[1..] ==> m' in ms;
  }

  /** On a descending walk, a revertible first file carries the highest revertible version. */
  lemma RevertibleHead(ms: seq<Migration>, applied: Ledger)
    requires Descending(ms) && |ms| > 0 && ms[0].direction == Down && ms[0].version in applied
    ensures Revertible(ms, applied) != {} && Greatest(Revertible(ms, applied)) == ms[0].version
  {
    var e := Revertible(ms, applied);
    assert ms[0].version as int in e;
    var g := Greatest(e);
    var k :| 0 <= k < |ms| && ms[k].direction == Down && ms[k].version == g;
  }

  /**
   * Without a target, on a walk in descending version order, the loop deletes at most
   * one row: that of the highest applied version with a `down` file. When the walk is
   * error-free and not dry it deletes exactly that row.
   */
  lemma {:induction false} RevertStepsOneRow(ms: seq<Migration>, applied: Ledger, cur: Ledger, dryRun: bool,
                                              exec: Migration -> bool)
    requires Descending(ms)
    ensures var r := RevertSteps(ms, applied, cur, None, dryRun, exec);
            var e := Revertible(ms, applied);
            && (r.ledger == cur || (e != {} && r.ledger == cur - {Greatest(e)}))
            && (r.error.None? && !dryRun && e != {} ==> r.ledger == cur - {Greatest(e)})
  {
    if |ms| > 0 {
      if ms[0].direction == Up || ms[0].version !in applied {
        RevertibleTail(ms, applied);
        RevertStepsOneRow(ms[1..], applied, cur, dryRun, exec);
      } else {
        RevertibleHead(ms, applied);
      }
    }
  }

  /**
   * `migrate revert` without a target deletes at most one row: the highest applied
   * version that has a `down` file, even when a newer applied version has none. An
   * error-free, non-dry revert deletes exactly that row.
   */
  lemma RevertWithoutTarget(ms: seq<Migration>, l: Ledger, dryRun: bool, ignoreMissing: bool, exec: Migration -> bool)
    requires SortedByVersion(ms)
    ensures var r := RevertAsWritten(ms, l, None, dryRun, ignoreMissing, exec);
            var e := Revertible(ms, l);
            && (r.ledger == l || (e != {} && r.ledger == l - {Greatest(e)}))
            && (r.error.None? && !dryRun && e != {} ==> r.ledger == l - {Greatest(e)})
  {
    ReverseDescending(ms);
    DownVersionsReverse(ms);
    RevertStepsOneRow(Reverse(ms), l, l, dryRun, exec);
  }

  /** A dry revert changes nothing. */
  lemma RevertDryRun(ms: seq<Migration>, l: Ledger, target: Option<int>, ignoreMissing: bool, exec: Migration -> bool)
    ensures RevertAsWritten(ms, l, target, true, ignoreMissing, exec).ledger == l
    ensures RevertIntended(ms, l, target, true, ignoreMissing, exec).ledger == l
  {
  }

  /** With every applied version at or below the target, the loop skips every revertible file. */
  lemma {:induction false} RevertStepsAllSkipped(ms: seq<Migration>, applied: Ledger, cur: Ledger, t: int,
                                                  dryRun: bool, exec: Migration -> bool)
    requires forall v :: v in applied ==> v <= t
    ensures var r := RevertSteps(ms, applied, cur, Some(t), dryRun, exec);
            r.ledger == cur && r.error.None? && forall e :: e in r.events ==> e.Skipped?
  {
    if |ms| > 0 {
      RevertStepsAllSkipped(ms[1..], applied, cur, t, dryRun, exec);
    }
  }

  /**
   * As written, `migrate revert --target-version` can never revert anything: a target
   * below the latest applied version is refused, and every applied version is then at
   * or below the target and skipped. Whatever the inputs, the table is unchanged and
   * no `Applied` or `Can apply` line is printed.
   */
  lemma RevertWithTargetChangesNothing(ms: seq<Migration>, l: Ledger, t: int, dryRun: bool, ignoreMissing: bool,
                                       exec: Migration -> bool)
    ensures var r := RevertAsWritten(ms, l, Some(t), dryRun, ignoreMissing, exec);
            r.ledger == l && forall e :: e in r.events ==> e.Skipped?
  {
    if Preflight(l, ms, ignoreMissing).Ok? && Latest(l) <= t {
      RevertStepsAllSkipped(Reverse(ms), l, l, t, dryRun, exec);
    }
  }

  /**
   * The evidently intended `migrate revert --target-version`: refuse a target above the
   * latest applied version (nothing to revert down to), then undo every applied version
   * above the target that has a `down` file, newest first.
   */
  function RevertToTarget(ms: seq<Migration>, l: Ledger, t: int, dryRun: bool, ignoreMissing: bool,
                          exec: Migration -> bool): (r: Outcome)
    ensures Preflight(l, ms, ignoreMissing).Err? ==>
              r == Outcome(l, [], [], Some(Preflight(l, ms, ignoreMissing).error))
    ensures Preflight(l, ms, ignoreMissing).Ok? && t > Latest(l) ==>
              r.ledger == l && r.events == [] && r.error == Some(TargetAboveLatest(t, Latest(l)))
  {
    match Preflight(l, ms, ignoreMissing)
    case Err(e) => Outcome(l, [], [], Some(e))
    case Ok(warnings) =>
      if t > Latest(l) then Outcome(l, warnings, [], Some(TargetAboveLatest(t, Latest(l))))
      else
        var p := RevertSteps(Reverse(ms), l, l, Some(t), dryRun, exec);
        Outcome(p.ledger, warnings, p.events, p.error)
  }

  /** With a target, an error-free, non-dry loop deletes every revertible version above it. */
  lemma {:induction false} RevertStepsToTarget(ms: seq<Migration>, applied: Ledger, cur: Ledger, t: int,
                                                exec: Migration -> bool)
    requires RevertSteps(ms, applied, cur, Some(t), false, exec).error.None?
    ensures RevertSteps(ms, applied, cur, Some(t), false, exec).ledger.Keys
            == cur.Keys - set v | v in Revertible(ms, applied) && v > t
  {
    if |ms| > 0 {
      var m := ms[0];
      assert forall m' :: m' in ms ==> m' == m || m' in ms[1..];
      assert forall m' :: m' in ms[1..] ==> m' in ms;
      if m.direction == Up || m.version !in applied || m.version <= t {
        RevertStepsToTarget(ms[1..], applied, cur, t, exec);
      } else {
        RevertStepsToTarget(ms[1..], applied, cur - {m.version as int}, t, exec);
      }
    }
  }

  /**
   * The corrected revert to a target: when it stops on no error and is not dry, the
   * table has lost exactly the applied versions above the target that have a `down`
   * file, and every other row is unchanged.
   */
  lemma RevertToTargetRemovesAbove(ms: seq<Migration>, l: Ledger, t: int, ignoreMissing: bool, exec: Migration -> bool)
    requires RevertToTarget(ms, l, t, false, ignoreMissing, exec).error.None?
    ensures var r := RevertToTarget(ms, l, t, false, ignoreMissing, exec).ledger;
            && r.Keys == l.Keys - set v | v in DownVersions(ms) && v > t
            && forall v :: v in r ==> r[v] == l[v]
  {
    DownVersionsReverse(ms);
    RevertStepsToTarget(Reverse(ms), l, l, t, exec);
  }
}
