/**
 * The decision logic of `migrate run`: resolve the source, check the ledger, refuse a
 * target below the latest applied version, then walk the `up` migrations in ascending
 * version order, applying each one that is neither applied nor above the target.
 *
 * Executing a script and inserting its row is an oracle `exec`; it answers whether the
 * script ran. The insert itself fails when the version already has a row, which happens
 * when two `up` files share a version: the checksum map is the snapshot read before the
 * loop, so the second file is not recognised as applied.
 */
module Runner {
  import opened Wrappers
  import opened MigrationFile
  import opened Resolver
  import opened IntSets
  import opened Ledger

  /** One printed line of the loop: `Skipped`, `Can apply` or `Applied`. */
  datatype Event = Skipped(migration: Migration) | CanApply(migration: Migration) | Applied(migration: Migration)

  /** Where a walk over the migrations stopped: the ledger, what it printed, and the error that ended it. */
  datatype Progress = Progress(ledger: Ledger, events: seq<Event>, error: Option<MigrateError>)

  /** A whole command: the ledger afterwards, the missing-version warnings, the printed lines, the error. */
  datatype Outcome = Outcome(ledger: Ledger, warnings: seq<int>, events: seq<Event>, error: Option<MigrateError>)

  /** The row a successful application inserts. */
  function RowOf(m: Migration): Row {
    Row(m.description, true, m.checksum)
  }

  function Emit(e: Event, p: Progress): Progress {
    p.(events := [e] + p.events)
  }

  /** An applied version whose recorded checksum differs from the file's. */
  predicate Tampered(m: Migration, applied: Ledger) {
    m.version in applied && applied[m.version].checksum != m.checksum
  }

  /** An `up` migration the run applies: not applied before the run, and not above the target. */
  predicate Pending(m: Migration, applied: Ledger, target: Option<int>) {
    m.direction == Up && m.version !in applied && (target.None? || m.version <= target.value)
  }

  function PendingVersions(ms: seq<Migration>, applied: Ledger, target: Option<int>): set<int> {
    set m | m in ms && Pending(m, applied, target) :: m.version as int
  }

  /**
   * The loop over the resolved migrations. `applied` is the checksum snapshot taken
   * before the loop and `cur` the table as the loop leaves it. Rows already present
   * never change, a new row is always for a pending version, and a dry run inserts
   * nothing.
   */
  function RunSteps(ms: seq<Migration>, applied: Ledger, cur: Ledger, target: Option<int>, dryRun: bool,
                    exec: Migration -> bool): (r: Progress)
    ensures forall v :: v in cur ==> v in r.ledger && r.ledger[v] == cur[v]
    ensures forall v :: v in r.ledger && v !in cur ==> v in PendingVersions(ms, applied, target)
    ensures dryRun ==> r.ledger == cur
  {
    if |ms| == 0 then Progress(cur, [], None)
    else
      var m := ms[0];
      var rest := RunSteps(ms[1..], applied, cur, target, dryRun, exec);
      if m.direction == Down then rest
      else if Tampered(m, applied) then Progress(cur, [], Some(Modified(m.version)))
      else if m.version in applied then rest
      else if target.Some? && m.version > target.value then Emit(Skipped(m), rest)
      else if dryRun then Emit(CanApply(m), rest)
      else if !exec(m) || m.version in cur then Progress(cur, [], Some(ExecFailed(m.version)))
      else
        var cur' := cur[m.version := RowOf(m)];
        Emit(Applied(m), RunSteps(ms[1..], applied, cur', target, dryRun, exec))
  }

  /**
   * `migrate run` over resolved migrations: the ledger checks, the target guard (latest
   * is 0 for an empty table), then the loop.
   */
  function Run(ms: seq<Migration>, l: Ledger, target: Option<int>, dryRun: bool, ignoreMissing: bool,
               exec: Migration -> bool): (r: Outcome)
    ensures Preflight(l, ms, ignoreMissing).Err? ==>
              r == Outcome(l, [], [], Some(Preflight(l, ms, ignoreMissing).error))
    ensures Preflight(l, ms, ignoreMissing).Ok? ==> r.warnings == Preflight(l, ms, ignoreMissing).value
    ensures Preflight(l, ms, ignoreMissing).Ok? && target.Some? && target.value < Latest(l) ==>
              r.ledger == l && r.events == [] && r.error == Some(TargetBelowLatest(target.value, Latest(l)))
  {
    match Preflight(l, ms, ignoreMissing)
    case Err(e) => Outcome(l, [], [], Some(e))
    case Ok(warnings) =>
      if target.Some? && target.value < Latest(l) then
        Outcome(l, warnings, [], Some(TargetBelowLatest(target.value, Latest(l))))
      else
        var p := RunSteps(ms, l, l, target, dryRun, exec);
        Outcome(p.ledger, warnings, p.events, p.error)
  }

  /** The whole command, from the source directory: an unresolvable source stops it first. */
  function MigrateRun(source: Source, oracle: FileOracle, l: Ledger, target: Option<int>, dryRun: bool,
                      ignoreMissing: bool, exec: Migration -> bool): (r: Outcome)
    ensures Resolve(source, oracle).Err? ==>
              r == Outcome(l, [], [], Some(SourceInvalid(Resolve(source, oracle).error)))
    ensures Resolve(source, oracle).Ok? ==>
              r == Run(Resolve(source, oracle).value, l, target, dryRun, ignoreMissing, exec)
  {
    match Resolve(source, oracle)
    case Err(e) => Outcome(l, [], [], Some(SourceInvalid(e)))
    case Ok(ms) => Run(ms, l, target, dryRun, ignoreMissing, exec)
  }

  /** An error-free, non-dry loop adds a row for exactly the pending versions. */
  lemma {:induction false} RunStepsKeys(ms: seq<Migration>, applied: Ledger, cur: Ledger, target: Option<int>,
                                         exec: Migration -> bool)
    requires RunSteps(ms, applied, cur, target, false, exec).error.None?
    ensures RunSteps(ms, applied, cur, target, false, exec).ledger.Keys == cur.Keys + PendingVersions(ms, applied, target)
  {
    if |ms| > 0 {
      var m := ms[0];
      PendingVersionsCons(ms, applied, target);
      if m.direction == Up && Tampered(m, applied) {
        assert false;
      } else if Pending(m, applied, target) {
        RunStepsKeys(ms[1..], applied, cur[m.version := RowOf(m)], target, exec);
      } else {
        RunStepsKeys(ms[1..], applied, cur, target, exec);
      }
    }
  }

  /** An error-free, non-dry loop gives every pending version the row of its file. */
  lemma {:induction false} RunStepsRows(ms: seq<Migration>, applied: Ledger, cur: Ledger, target: Option<int>,
                                         exec: Migration -> bool)
    requires RunSteps(ms, applied, cur, target, false, exec).error.None?
    ensures var r := RunSteps(ms, applied, cur, target, false, exec).ledger;
            forall i :: 0 <= i < |ms| && Pending(ms[i], applied, target) ==> ms[i].version in r && r[ms[i].version] == RowOf(ms[i])
  {
    if |ms| > 0 {
      var m := ms[0];
      assert forall i :: 0 < i < |ms| ==> ms[i] == ms[1..][i - 1];
      if m.direction == Up && Tampered(m, applied) {
        assert false;
      } else if Pending(m, applied, target) {
        var cur' := cur[m.version := RowOf(m)];
        var rest := RunSteps(ms[1..], applied, cur', target, false, exec);
        assert RunSteps(ms, applied, cur, target, false, exec).ledger == rest.ledger;
        RunStepsRows(ms[1..], applied, cur', target, exec);
        assert m.version in cur' && rest.ledger[m.version] == RowOf(m);
      } else {
        assert RunSteps(ms, applied, cur, target, false, exec).ledger
            == RunSteps(ms[1..], applied, cur, target, false, exec).ledger;
        RunStepsRows(ms[1..], applied, cur, target, exec);
      }
    }
  }

  lemma PendingVersionsCons(ms: seq<Migration>, applied: Ledger, target: Option<int>)
    requires |ms| > 0
    ensures PendingVersions(ms, applied, target)
         == PendingVersions(ms[1..], applied, target)
            + (if Pending(ms[0], applied, target) then {ms[0].version as int} else {})
  {
    assert ms == [ms[0]] + ms[1..];
  }

  /**
   * The loop stopped with error `e` at `m`, with the table `before` as it stood there:
   * an applied file whose checksum changed, or a pending file whose script failed or
   * whose row already exists (its insert fails on the primary key).
   */
  predicate FailsAt(m: Migration, applied: Ledger, before: Ledger, target: Option<int>, dryRun: bool,
                    exec: Migration -> bool, e: MigrateError) {
    && m.direction == Up
    && ((Tampered(m, applied) && e == Modified(m.version))
        || (Pending(m, applied, target) && !dryRun && (!exec(m) || m.version in before) && e == ExecFailed(m.version)))
  }

  /**
   * The loop stopped at `ms[i]`: every earlier `up` file passed the checksum check and,
   * when it was applied, ran; `ms[i]` is where the error arose; the table holds the old
   * rows plus the pending versions before `i` only; and only files before `i` printed a
   * line.
   */
  predicate StoppedAt(ms: seq<Migration>, i: int, applied: Ledger, cur: Ledger, target: Option<int>, dryRun: bool,
                      exec: Migration -> bool, r: Progress) {
    && 0 <= i < |ms|
    && (forall j :: 0 <= j < i && ms[j].direction == Up ==>
          !Tampered(ms[j], applied) && (Pending(ms[j], applied, target) && !dryRun ==> exec(ms[j])))
    && r.error.Some?
    && FailsAt(ms[i], applied, r.ledger, target, dryRun, exec, r.error.value)
    && r.ledger.Keys == cur.Keys + (if dryRun then {} else PendingVersions(ms[..i], applied, target))
    && (forall k :: 0 <= k < |r.events| ==> r.events[k].migration in ms[..i])
  }

  /** A file that passed, followed by a walk that stopped at `i'`, stops at `i' + 1`. */
  lemma StoppedAtCons(ms: seq<Migration>, i': int, applied: Ledger, cur: Ledger, cur': Ledger, target: Option<int>,
                      dryRun: bool, exec: Migration -> bool, r: Progress, r': Progress)
    requires |ms| > 0
    requires !(ms[0].direction == Up && Tampered(ms[0], applied))
    requires Pending(ms[0], applied, target) && !dryRun ==> exec(ms[0])
    requires cur' == if Pending(ms[0], applied, target) && !dryRun then cur[ms[0].version := RowOf(ms[0])] else cur
    requires StoppedAt(ms[1..], i', applied, cur', target, dryRun, exec, r')
    requires r.ledger == r'.ledger && r.error == r'.error
    requires r.events == r'.events || (|r.events| > 0 && r.events[1..] == r'.events && r.events[0].migration == ms[0])
    ensures StoppedAt(ms, i' + 1, applied, cur, target, dryRun, exec, r)
  {
    var i := i' + 1;
    assert ms[..i][1..] == ms[1..][..i'];
    PendingVersionsCons(ms[..i], applied, target);
    assert forall j :: 0 < j < i ==> ms[j] == ms[1..][j - 1];
    assert forall x :: x in ms[1..][..i'] ==> x in ms[..i];
    assert ms[i] == ms[1..][i'];
    if r.events != r'.events {
      assert forall k :: 0 < k < |r.events| ==> r.events[k] == r'.events[k - 1];
    }
  }

  /**
   * An error ends the loop at once: the changed or failing file is the first one, the
   * rows inserted before it stay, and no later file is applied or printed.
   */
  lemma {:induction false} RunStepsStopsAtFailure(ms: seq<Migration>, applied: Ledger, cur: Ledger,
                                                   target: Option<int>, dryRun: bool, exec: Migration -> bool)
    requires RunSteps(ms, applied, cur, target, dryRun, exec).error.Some?
    ensures exists i :: StoppedAt(ms, i, applied, cur, target, dryRun, exec, RunSteps(ms, applied, cur, target, dryRun, exec))
  {
    var r := RunSteps(ms, applied, cur, target, dryRun, exec);
    var m := ms[0];
    if m.direction == Up && (Tampered(m, applied) || (Pending(m, applied, target) && !dryRun && (!exec(m) || m.version in cur))) {
      assert ms[..0] == [];
      assert PendingVersions([], applied, target) == {};
      assert r == Progress(cur, [], r.error);
      assert StoppedAt(ms, 0, applied, cur, target, dryRun, exec, r);
    } else {
      var cur' := if Pending(m, applied, target) && !dryRun then cur[m.version := RowOf(m)] else cur;
      var r' := RunSteps(ms[1..], applied, cur', target, dryRun, exec);
      assert r.ledger == r'.ledger && r.error == r'.error;
      assert r.events == r'.events || (|r.events| > 0 && r.events[1..] == r'.events && r.events[0].migration == m);
      RunStepsStopsAtFailure(ms[1..], applied, cur', target, dryRun, exec);
      var i' :| StoppedAt(ms[1..], i', applied, cur', target, dryRun, exec, r');
      StoppedAtCons(ms, i', applied, cur, cur', target, dryRun, exec, r, r');
    }
  }

  /** An error-free loop met no `up` file whose recorded checksum differs from its own. */
  lemma {:induction false} RunStepsNoTamper(ms: seq<Migration>, applied: Ledger, cur: Ledger, target: Option<int>,
                                             dryRun: bool, exec: Migration -> bool)
    requires RunSteps(ms, applied, cur, target, dryRun, exec).error.None?
    ensures forall m :: m in ms && m.direction == Up ==> !Tampered(m, applied)
  {
    if |ms| > 0 {
      var m := ms[0];
      assert forall m' :: m' in ms ==> m' == m || m' in ms[1..];
      if m.direction == Up && !Tampered(m, applied) && !(m.version in applied)
         && !(target.Some? && m.version > target.value) && !dryRun {
        RunStepsNoTamper(ms[1..], applied, cur[m.version := RowOf(m)], target, dryRun, exec);
      } else {
        RunStepsNoTamper(ms[1..], applied, cur, target, dryRun, exec);
      }
    }
  }

  /**
   * When every `up` file is either applied with its own checksum or above the target,
   * the loop changes nothing, stops on no error and prints only `Skipped` lines.
   */
  lemma {:induction false} RunStepsSettled(ms: seq<Migration>, applied: Ledger, cur: Ledger, target: Option<int>,
                                            dryRun: bool, exec: Migration -> bool)
    requires forall m :: m in ms && m.direction == Up ==>
               !Tampered(m, applied) && (m.version in applied || (target.Some? && m.version > target.value))
    ensures var r := RunSteps(ms, applied, cur, target, dryRun, exec);
            r.ledger == cur && r.error.None? && forall e :: e in r.events ==> e.Skipped?
  {
    if |ms| > 0 {
      RunStepsSettled(ms[1..], applied, cur, target, dryRun, exec);
    }
  }

  /**
   * An error-free `migrate run` leaves the table equal to the old table plus exactly the
   * unapplied `up` versions not above the target, each row successful and carrying the
   * file's checksum.
   */
  lemma RunComplete(ms: seq<Migration>, l: Ledger, target: Option<int>, ignoreMissing: bool, exec: Migration -> bool)
    requires Run(ms, l, target, false, ignoreMissing, exec).error.None?
    ensures var r := Run(ms, l, target, false, ignoreMissing, exec).ledger;
            && r.Keys == l.Keys + PendingVersions(ms, l, target)
            && (forall v :: v in l ==> v in r && r[v] == l[v])
            && forall i :: 0 <= i < |ms| && Pending(ms[i], l, target) ==>
                 ms[i].version in r && r[ms[i].version] == Row(ms[i].description, true, ms[i].checksum)
  {
    RunStepsKeys(ms, l, l, target, exec);
    RunStepsRows(ms, l, l, target, exec);
  }

  /** Whatever happens, `migrate run` adds no row above the target and changes no existing row. */
  lemma RunNeverAboveTarget(ms: seq<Migration>, l: Ledger, target: Option<int>, dryRun: bool, ignoreMissing: bool,
                            exec: Migration -> bool)
    ensures var r := Run(ms, l, target, dryRun, ignoreMissing, exec).ledger;
            && (forall v :: v in l ==> v in r && r[v] == l[v])
            && forall v :: v in r && v !in l ==> v in Versions(ms) && (target.None? || v <= target.value)
  {
  }

  /** A dry run changes nothing. */
  lemma RunDryRun(ms: seq<Migration>, l: Ledger, target: Option<int>, ignoreMissing: bool, exec: Migration -> bool)
    ensures Run(ms, l, target, true, ignoreMissing, exec).ledger == l
  {
  }

  /**
   * A run that gets past the checks and the target guard stops with an error if any
   * `up` file was applied with a different checksum.
   */
  lemma RunRejectsTampering(ms: seq<Migration>, l: Ledger, target: Option<int>, dryRun: bool, ignoreMissing: bool,
                            exec: Migration -> bool, m: Migration)
    requires m in ms && m.direction == Up && m.version in l && l[m.version].checksum != m.checksum
    ensures Run(ms, l, target, dryRun, ignoreMissing, exec).error.Some?
  {
    if Run(ms, l, target, dryRun, ignoreMissing, exec).error.None? {
      RunStepsNoTamper(ms, l, l, target, dryRun, exec);
    }
  }

  /** An error-free run adds only successful rows for resolved versions, so the ledger checks see the same table. */
  lemma RunKeepsChecks(ms: seq<Migration>, l: Ledger, target: Option<int>, ignoreMissing: bool, exec: Migration -> bool)
    requires Run(ms, l, target, false, ignoreMissing, exec).error.None?
    ensures Preflight(Run(ms, l, target, false, ignoreMissing, exec).ledger, ms, ignoreMissing) == Preflight(l, ms, ignoreMissing)
  {
    var l' := Run(ms, l, target, false, ignoreMissing, exec).ledger;
    RunComplete(ms, l, target, ignoreMissing, exec);
    assert DirtyVersions(l') == DirtyVersions(l) by {
      forall v | v in l' && v !in l ensures l'[v].success {
        var i :| 0 <= i < |ms| && Pending(ms[i], l, target) && ms[i].version == v;
      }
    }
    assert MissingVersions(l', ms) == MissingVersions(l, ms) by {
      forall v | v in l' && v !in l ensures v in Versions(ms) {
        var i :| 0 <= i < |ms| && Pending(ms[i], l, target) && ms[i].version == v;
      }
    }
  }

  /**
   * After an error-free run every `up` file is applied with its own checksum or lies
   * above the target, and the target is not below the latest applied version.
   */
  lemma RunSettles(ms: seq<Migration>, l: Ledger, target: Option<int>, ignoreMissing: bool, exec: Migration -> bool)
    requires Run(ms, l, target, false, ignoreMissing, exec).error.None?
    ensures var l' := Run(ms, l, target, false, ignoreMissing, exec).ledger;
            && (forall m :: m in ms && m.direction == Up ==>
                  !Tampered(m, l') && (m.version in l' || (target.Some? && m.version > target.value)))
            && (target.Some? ==> Latest(l') <= target.value)
  {
    var l' := Run(ms, l, target, false, ignoreMissing, exec).ledger;
    RunComplete(ms, l, target, ignoreMissing, exec);
    RunStepsNoTamper(ms, l, l, target, false, exec);
    forall m | m in ms && m.direction == Up
      ensures !Tampered(m, l') && (m.version in l' || (target.Some? && m.version > target.value))
    {
      var i :| 0 <= i < |ms| && ms[i] == m;
      if m.version !in l && Pending(m, l, target) {
        assert l'[m.version] == RowOf(m);
      }
    }
    if target.Some? {
      assert l' == map[] ==> l == map[];
      LatestAtMost(l', target.value);
    }
  }

  /**
   * `migrate run` is idempotent: after an error-free run, running again with the same
   * files and target (dry or not, whatever the scripts would do) changes nothing, stops
   * on no error, prints the same warnings, and applies nothing.
   */
  lemma RunIdempotent(ms: seq<Migration>, l: Ledger, target: Option<int>, ignoreMissing: bool,
                      exec: Migration -> bool, dryRun2: bool, exec2: Migration -> bool)
    requires Run(ms, l, target, false, ignoreMissing, exec).error.None?
    ensures var r := Run(ms, l, target, false, ignoreMissing, exec);
            var r2 := Run(ms, r.ledger, target, dryRun2, ignoreMissing, exec2);
            && r2.ledger == r.ledger && r2.error.None? && r2.warnings == r.warnings
            && forall e :: e in r2.events ==> e.Skipped?
  {
    var l' := Run(ms, l, target, false, ignoreMissing, exec).ledger;
    RunKeepsChecks(ms, l, target, ignoreMissing, exec);
    RunSettles(ms, l, target, ignoreMissing, exec);
    RunStepsSettled(ms, l', l', target, dryRun2, exec2);
  }

}
